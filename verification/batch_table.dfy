/** The table as PostgreSQL updates it: each statement reads the stored row, evaluates its conditions
    in three-valued logic and assigns columns. */
module BatchTables {
  import opened Sql
  import opened BatchStore
  import opened BatchLog

  class BatchTable {
    var rows: Table
    ghost var log: seq<Op>

    ghost predicate Valid()
      reads this
    {
      rows == Replay(log)
    }

    constructor ()
      ensures Valid() && rows == map[] && log == []
    {
      rows := map[];
      log := [];
    }

    /** The insert-or-update of Begin. All right-hand sides of the SET list read the old row. */
    method Begin(key: Key, steps: seq<string>, now: Time, lease: Time) returns (reply: Reply)
      requires Valid()
      modifies this
      ensures Valid() && log == old(log) + [Op(key, Statement.Begin(steps, now, lease))]
      ensures (rows, reply) == Execute(old(rows), Op(key, Statement.Begin(steps, now, lease)))
    {
      Record(key, Statement.Begin(steps, now, lease));
      var excluded := Row(steps, 1, [], Running, Some(lease), None, None, Started, now);
      if !key.Checks() || !Checks(excluded) {
        return Rejected;
      }
      if key !in rows {
        rows := rows[key := excluded];
        return Began(Started, 1, []);
      }
      var execution := rows[key];
      AgreementUnderChecks(execution, excluded.steps, excluded.updatedAt);
      var resumable := Resumable(execution, excluded.steps, excluded.updatedAt);
      var next := execution.(beginOutcome := OutcomeCase(execution, excluded.steps, excluded.updatedAt));
      if resumable.Holds() {
        next := next.(attempt := execution.attempt + 1);
        next := next.(state := Running);
        next := next.(leaseUntil := excluded.leaseUntil);
        next := next.(failureStep := None);
        next := next.(failureKind := None);
        next := next.(updatedAt := excluded.updatedAt);
      }
      rows := rows[key := next];
      return Began(next.beginOutcome, next.attempt, next.completed);
    }

    method Checkpoint(key: Key, attempt: int, step: string, now: Time, lease: Time) returns (reply: Reply)
      requires Valid()
      modifies this
      ensures Valid() && log == old(log) + [Op(key, Statement.Checkpoint(attempt, step, now, lease))]
      ensures (rows, reply) == Execute(old(rows), Op(key, Statement.Checkpoint(attempt, step, now, lease)))
    {
      Record(key, Statement.Checkpoint(attempt, step, now, lease));
      if key !in rows { return Affected(0); }
      var execution := rows[key];
      var matches := Truth(execution.attempt == attempt)
        .And(Truth(execution.state.Running?))
        .And(Truth(|execution.completed| < |execution.steps|))
        .And(Equals(ElementText(execution.steps, |execution.completed|), step));
      if !matches.Holds() { return Affected(0); }
      var next := execution.(completed := execution.completed + [step]);
      next := next.(leaseUntil := Some(lease));
      next := next.(updatedAt := now);
      reply := Write(key, next);
    }

    method Finish(key: Key, attempt: int, now: Time) returns (reply: Reply)
      requires Valid()
      modifies this
      ensures Valid() && log == old(log) + [Op(key, Statement.Finish(attempt, now))]
      ensures (rows, reply) == Execute(old(rows), Op(key, Statement.Finish(attempt, now)))
    {
      Record(key, Statement.Finish(attempt, now));
      if key !in rows { return Affected(0); }
      var execution := rows[key];
      var matches := Truth(execution.attempt == attempt)
        .And(Truth(execution.state.Running?))
        .And(Truth(|execution.completed| == |execution.steps|));
      if !matches.Holds() { return Affected(0); }
      var next := execution.(state := Complete);
      next := next.(leaseUntil := None);
      next := next.(failureStep := None);
      next := next.(failureKind := None);
      next := next.(updatedAt := now);
      reply := Write(key, next);
    }

    method Fail(key: Key, attempt: int, step: string, kind: string, now: Time) returns (reply: Reply)
      requires Valid()
      modifies this
      ensures Valid() && log == old(log) + [Op(key, Statement.Fail(attempt, step, kind, now))]
      ensures (rows, reply) == Execute(old(rows), Op(key, Statement.Fail(attempt, step, kind, now)))
    {
      Record(key, Statement.Fail(attempt, step, kind, now));
      if key !in rows { return Affected(0); }
      var execution := rows[key];
      AtStepDecides(execution, step);
      var matches := Truth(execution.attempt == attempt)
        .And(Truth(execution.state.Running?))
        .And(AtStep(execution, step));
      if !matches.Holds() { return Affected(0); }
      var next := execution.(state := Failed);
      next := next.(leaseUntil := None);
      next := next.(failureStep := Some(step));
      next := next.(failureKind := Some(kind));
      next := next.(updatedAt := now);
      reply := Write(key, next);
    }

    /** Stores the new version of a matched row unless a CHECK constraint refuses it. */
    method Write(key: Key, next: Row) returns (reply: Reply)
      modifies this`rows
      ensures rows == if Checks(next) then old(rows)[key := next] else old(rows)
      ensures reply == if Checks(next) then Affected(1) else Rejected
    {
      if !Checks(next) { return Rejected; }
      rows := rows[key := next];
      reply := Affected(1);
    }

    ghost method Record(key: Key, statement: Statement)
      requires Valid()
      modifies this`log
      ensures log == old(log) + [Op(key, statement)]
      ensures Replay(log) == Execute(rows, Op(key, statement)).0
    {
      log := log + [Op(key, statement)];
      assert log[..|log| - 1] == old(log);
    }
  }

  /** `steps ->> n` counts from zero; an index outside the array gives NULL. A negative index would
      count from the end, but no statement produces one on a stored row. */
  function ElementText(steps: seq<string>, n: int): Option<string> {
    if 0 <= n < |steps| then Some(steps[n]) else None
  }

  /** The step condition of Fail: the step named is the next one, or the last when none is left. */
  function AtStep(execution: Row, step: string): Tri {
    Truth(|execution.completed| < |execution.steps|)
    .And(Equals(ElementText(execution.steps, |execution.completed|), step))
    .Or(Truth(|execution.completed| == |execution.steps|)
        .And(Equals(ElementText(execution.steps, |execution.steps| - 1), step)))
  }

  lemma AtStepDecides(execution: Row, step: string)
    requires Sound(execution)
    ensures AtStep(execution, step).Holds() <==> CurrentStep(execution) == step
  {
  }
}

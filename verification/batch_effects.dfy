/** What each statement of a run does and answers, over the stored columns alone. */
module BatchEffects {
  import opened Sql
  import opened BatchStore
  import opened BatchLog

  /** The statement at position `i` is about `key`. */
  ghost predicate About(log: seq<Op>, key: Key, i: nat) {
    i < |log| && log[i].key == key
  }

  /** The attempt is the one now running on the row. */
  predicate Runs(r: Row, attempt: int) {
    r.state == Running && r.attempt == attempt
  }

  /** A lease that has not ended at time `now` keeps others off the running attempt. */
  predicate KeptOff(r: Row, now: Time) {
    r.state == Running && r.leaseUntil != None && now < r.leaseUntil.value
  }

  // ----- Begin

  /** A Begin is rejected exactly for a key or a step list out of range, and then changes nothing. */
  lemma BeginRejected(log: seq<Op>, key: Key, i: nat)
    requires About(log, key, i) && log[i].statement.Begin?
    ensures ReplyAt(log, i) == Rejected
            <==> !(TextFits(key.job) && TextFits(key.unit) && TextFits(key.instance)
                   && 1 <= |log[i].statement.steps| <= 10000)
    ensures ReplyAt(log, i) == Rejected ==> RowAfter(log[..i + 1], key) == RowAfter(log[..i], key)
  {
    Advance(log, key, i);
  }

  /** The first Begin on a key stores the steps it was given and starts attempt 1. */
  lemma BeginStarts(log: seq<Op>, key: Key, i: nat)
    requires About(log, key, i) && log[i].statement.Begin? && RowAfter(log[..i], key).None?
    requires ReplyAt(log, i) != Rejected
    ensures var s := log[i].statement;
            && RowAfter(log[..i + 1], key)
               == Some(Row(s.steps, 1, [], Running, Some(s.lease), None, None, Started, s.now))
            && ReplyAt(log, i) == Reply.Began(Started, 1, [])
  {
    Advance(log, key, i);
  }

  /** On a stored row, each outcome has its own exact condition. */
  lemma BeginDecides(log: seq<Op>, key: Key, i: nat)
    requires About(log, key, i) && log[i].statement.Begin? && RowAfter(log[..i], key).Some?
    requires ReplyAt(log, i) != Rejected
    ensures ReplyAt(log, i).Began?
    ensures var r, s, outcome := RowAfter(log[..i], key).value, log[i].statement, ReplyAt(log, i).outcome;
            && (outcome == Changed <==> s.steps != r.steps)
            && (outcome == AlreadyComplete <==> s.steps == r.steps && r.state == Complete)
            && (outcome == AlreadyRunning <==> s.steps == r.steps && KeptOff(r, s.now))
            && (outcome == Overflow <==> s.steps == r.steps && r.state != Complete && !KeptOff(r, s.now)
                                         && r.attempt == 9223372036854775807)
            && (outcome == Resumed <==> s.steps == r.steps && r.state != Complete && !KeptOff(r, s.now)
                                        && r.attempt < 9223372036854775807)
            && outcome != Started
  {
    Advance(log, key, i);
  }

  /** What a Begin leaves of a stored row, and answers. */
  lemma BeginWrites(log: seq<Op>, key: Key, i: nat)
    requires About(log, key, i) && log[i].statement.Begin? && RowAfter(log[..i], key).Some?
    requires ReplyAt(log, i) != Rejected
    ensures ReplyAt(log, i).Began?
    ensures var r, s, outcome := RowAfter(log[..i], key).value, log[i].statement, ReplyAt(log, i).outcome;
            if outcome == Resumed then
              && RowAfter(log[..i + 1], key)
                 == Some(Row(r.steps, r.attempt + 1, r.completed, Running, Some(s.lease), None, None, Resumed, s.now))
              && ReplyAt(log, i) == Reply.Began(Resumed, r.attempt + 1, r.completed)
            else
              && RowAfter(log[..i + 1], key)
                 == Some(Row(r.steps, r.attempt, r.completed, r.state, r.leaseUntil, r.failureStep, r.failureKind,
                             outcome, r.updatedAt))
              && ReplyAt(log, i) == Reply.Began(outcome, r.attempt, r.completed)
  {
    Advance(log, key, i);
  }

  // ----- Checkpoint, Complete, Fail

  /** A checkpoint is stored exactly if the attempt is running and names the next step. */
  lemma CheckpointExactly(log: seq<Op>, key: Key, i: nat)
    requires About(log, key, i) && log[i].statement.Checkpoint?
    ensures var row, s := RowAfter(log[..i], key), log[i].statement;
            if && row.Some? && Runs(row.value, s.attempt) && |row.value.completed| < |row.value.steps|
               && s.step == row.value.steps[|row.value.completed|]
            then
              var r := row.value;
              && RowAfter(log[..i + 1], key)
                 == Some(Row(r.steps, r.attempt, r.completed + [s.step], Running, Some(s.lease), r.failureStep,
                             r.failureKind, r.beginOutcome, s.now))
              && ReplyAt(log, i) == Affected(1)
            else RowAfter(log[..i + 1], key) == row && ReplyAt(log, i) == Affected(0)
  {
    Advance(log, key, i);
  }

  /** A completion is stored exactly if the attempt is running and no step is left. */
  lemma FinishExactly(log: seq<Op>, key: Key, i: nat)
    requires About(log, key, i) && log[i].statement.Finish?
    ensures var row, s := RowAfter(log[..i], key), log[i].statement;
            if row.Some? && Runs(row.value, s.attempt) && |row.value.completed| == |row.value.steps|
            then
              var r := row.value;
              && RowAfter(log[..i + 1], key)
                 == Some(Row(r.steps, r.attempt, r.completed, Complete, None, None, None, r.beginOutcome, s.now))
              && ReplyAt(log, i) == Affected(1)
            else RowAfter(log[..i + 1], key) == row && ReplyAt(log, i) == Affected(0)
  {
    Advance(log, key, i);
  }

  /** The report names the step the row is at: the next one, or the last when none is left. */
  predicate AtStep(r: Row, step: string) {
    || (|r.completed| < |r.steps| && step == r.steps[|r.completed|])
    || (|r.completed| == |r.steps| > 0 && step == r.steps[|r.steps| - 1])
  }

  /** The report is about the running attempt and the step it is at. */
  predicate Concerns(row: Option<Row>, s: Statement)
    requires s.Fail?
  {
    row.Some? && Runs(row.value, s.attempt) && AtStep(row.value, s.step)
  }

  lemma FailApplies(key: Key, row: Option<Row>, s: Statement)
    requires SoundAt(key, row) && s.Fail?
    ensures Apply(key, row, s)
            == if !Concerns(row, s) then (row, Affected(0))
               else if !(TextFits(s.step) && s.kind in ["error", "canceled", "panic"]) then (row, Rejected)
               else
                 var r := row.value;
                 (Some(Row(r.steps, r.attempt, r.completed, Failed, None, Some(s.step), Some(s.kind), r.beginOutcome,
                           s.now)),
                  Affected(1))
  {
  }

  /** A failure is stored, with its step and kind, exactly if the attempt is running and names the step it is
      at; an unknown kind or a step name that does not fit makes such a report an error. */
  lemma FailExactly(log: seq<Op>, key: Key, i: nat)
    requires About(log, key, i) && log[i].statement.Fail?
    ensures var row, s := RowAfter(log[..i], key), log[i].statement;
            if Concerns(row, s) then
              if TextFits(s.step) && s.kind in ["error", "canceled", "panic"] then
                var r := row.value;
                && RowAfter(log[..i + 1], key)
                   == Some(Row(r.steps, r.attempt, r.completed, Failed, None, Some(s.step), Some(s.kind),
                               r.beginOutcome, s.now))
                && ReplyAt(log, i) == Affected(1)
              else RowAfter(log[..i + 1], key) == row && ReplyAt(log, i) == Rejected
            else RowAfter(log[..i + 1], key) == row && ReplyAt(log, i) == Affected(0)
  {
    Advance(log, key, i);
    FailApplies(key, RowAfter(log[..i], key), log[i].statement);
  }
}

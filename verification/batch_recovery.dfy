/** Leases and restarts: a lease keeps other clients out while it lasts, and once it has run out (or the
    attempt failed) one Begin, the missing checkpoints and a completion bring the execution to its end. */
module BatchRecovery {
  import opened Sql
  import opened BatchStore
  import opened BatchLog
  import opened BatchHistory
  import opened Search

  // ----- leases

  /** The statement gave the running attempt a lease until `lease`: a granted Begin or an effective checkpoint. */
  ghost predicate Renews(log: seq<Op>, key: Key, i: nat, lease: Time) {
    && i < |log|
    && EffectAt(log, key, i) in {Opened, Retried, TookOver, Advanced}
    && (log[i].statement.Begin? || log[i].statement.Checkpoint?)
    && log[i].statement.lease == lease
  }

  lemma RenewedRow(key: Key, row: Option<Row>, s: Statement)
    requires SoundAt(key, row) && EffectOf(key, row, s) in {Opened, Retried, TookOver, Advanced}
    requires s.Begin? || s.Checkpoint?
    ensures Apply(key, row, s).0.Some?
    ensures Apply(key, row, s).0.value.state.Running? && Apply(key, row, s).0.value.leaseUntil == Some(s.lease)
  {
  }

  lemma RenewalSetsLease(log: seq<Op>, key: Key, i: nat, lease: Time)
    requires Renews(log, key, i, lease)
    ensures RowAfter(log[..i + 1], key).Some?
    ensures var r := RowAfter(log[..i + 1], key).value; r.state.Running? && r.leaseUntil == Some(lease)
  {
    Advance(log, key, i);
    RenewedRow(key, RowAfter(log[..i], key), log[i].statement);
  }

  /** With no renewal and no failure the lease stands, unless the execution completes. */
  lemma {:induction false} LeaseStands(log: seq<Op>, key: Key, i: nat, j: nat)
    requires i <= j <= |log|
    requires RowAfter(log[..i], key).Some? && RowAfter(log[..i], key).value.state.Running?
    requires forall m | i <= m < j :: EffectAt(log, key, m) == Nothing || EffectAt(log, key, m) == Finished
    ensures RowAfter(log[..j], key).Some?
    ensures var r, r' := RowAfter(log[..i], key).value, RowAfter(log[..j], key).value;
            r'.state.Complete? || (HeldBy(r', r.attempt) && r'.leaseUntil == r.leaseUntil)
    decreases j
  {
    if i == j {
    } else {
      LeaseStands(log, key, i, j - 1);
      EffectMoves(log, key, j - 1);
      if RowAfter(log[..j - 1], key).value.state.Complete? {
        CompleteForever(log, key, j - 1, j - 1);
      }
    }
  }

  lemma ResumptionFindsNoLease(log: seq<Op>, key: Key, j: nat)
    requires j < |log| && EffectAt(log, key, j) in {Retried, TookOver}
    ensures log[j].statement.Begin? && RowAfter(log[..j], key).Some?
    ensures var r := RowAfter(log[..j], key).value;
            && !r.state.Complete?
            && (r.state.Running? ==> r.leaseUntil.Some? && r.leaseUntil.value <= log[j].statement.now)
  {
    Advance(log, key, j);
  }

  lemma FailureIsTheHolders(log: seq<Op>, key: Key, m: nat)
    requires m < |log| && EffectAt(log, key, m) == GaveUp
    ensures log[m].statement.Fail? && RowAfter(log[..m], key).Some?
    ensures HeldBy(RowAfter(log[..m], key).value, log[m].statement.attempt)
  {
    Advance(log, key, m);
  }

  ghost predicate Fails(log: seq<Op>, key: Key, i: nat) {
    i < |log| && EffectAt(log, key, i) == GaveUp
  }

  /** The first failure after a renewal that no other renewal follows is reported by the same attempt. */
  lemma FailureByRenewer(log: seq<Op>, key: Key, i: nat, j: nat, lease: Time) returns (m: nat)
    requires i < j < |log| && Renews(log, key, i, lease)
    requires forall m | i < m < j :: EffectAt(log, key, m) !in {Opened, Retried, TookOver, Advanced}
    requires exists m :: i < m < j && Fails(log, key, m)
    ensures i < m < j && EffectAt(log, key, m) == GaveUp && log[m].statement.Fail?
    ensures RowAfter(log[..i + 1], key).Some?
    ensures log[m].statement.attempt == RowAfter(log[..i + 1], key).value.attempt
  {
    var p := (l: nat) => Fails(log, key, l);
    var some :| i < some < j && Fails(log, key, some);
    assert p(some);
    m := First(p, i + 1, j);
    RenewalSetsLease(log, key, i, lease);
    forall l | i < l < m ensures EffectAt(log, key, l) == Nothing || EffectAt(log, key, l) == Finished {
      assert !p(l);
    }
    LeaseStands(log, key, i + 1, m);
    FailureIsTheHolders(log, key, m);
  }

  /** If the Begin at position `j` resumes an execution whose lease was last renewed, until `lease`, at
      position `i`, then either that very attempt reported a failure in between or the Begin's clock had
      reached the end of the lease. */
  lemma NoLeaseStealing(log: seq<Op>, key: Key, i: nat, j: nat, lease: Time)
    requires i < j < |log| && Renews(log, key, i, lease)
    requires forall m | i < m < j :: EffectAt(log, key, m) !in {Opened, Retried, TookOver, Advanced}
    requires EffectAt(log, key, j) in {Retried, TookOver}
    ensures RowAfter(log[..i + 1], key).Some?
    ensures || (log[j].statement.Begin? && lease <= log[j].statement.now)
            || (exists m :: && i < m < j && EffectAt(log, key, m) == GaveUp && log[m].statement.Fail?
                            && log[m].statement.attempt == RowAfter(log[..i + 1], key).value.attempt)
  {
    RenewalSetsLease(log, key, i, lease);
    if exists m :: i < m < j && Fails(log, key, m) {
      var m := FailureByRenewer(log, key, i, j, lease);
    } else {
      forall m | i < m < j ensures EffectAt(log, key, m) == Nothing || EffectAt(log, key, m) == Finished {
        assert !Fails(log, key, m);
      }
      LeaseStands(log, key, i + 1, j);
      ResumptionFindsNoLease(log, key, j);
    }
  }

  // ----- restart

  /** Checkpoints for the steps from position `p` on, at whatever times the client's clock shows. */
  function RemainingSteps(key: Key, attempt: int, steps: seq<string>, p: nat, clock: nat -> Time, lease: nat -> Time)
    : (ops: seq<Op>)
    requires p <= |steps|
    ensures |ops| == |steps| - p
    decreases |steps| - p
  {
    if p == |steps| then []
    else [Op(key, Checkpoint(attempt, steps[p], clock(p), lease(p)))]
         + RemainingSteps(key, attempt, steps, p + 1, clock, lease)
  }

  /** What a restarting client issues for the stored row `r`. */
  function Recovery(key: Key, r: Row, now: Time, until: Time, clock: nat -> Time, lease: nat -> Time): (ops: seq<Op>)
    requires |r.completed| <= |r.steps|
    ensures |ops| == |r.steps| - |r.completed| + 2
  {
    [Op(key, Begin(r.steps, now, until))]
    + RemainingSteps(key, r.attempt + 1, r.steps, |r.completed|, clock, lease)
    + [Op(key, Finish(r.attempt + 1, clock(|r.steps|)))]
  }

  /** Issuing one more statement on `key`. */
  lemma Issue(log: seq<Op>, key: Key, statement: Statement)
    ensures var longer := log + [Op(key, statement)];
            && RowAfter(longer, key) == Apply(key, RowAfter(log, key), statement).0
            && ReplyAt(longer, |log|) == Apply(key, RowAfter(log, key), statement).1
  {
    var longer := log + [Op(key, statement)];
    assert longer[..|log|] == log && longer[..|log| + 1] == longer;
    Advance(longer, key, |log|);
  }

  /** Replies already given do not depend on later statements. */
  lemma RepliesKept(log: seq<Op>, more: seq<Op>, i: nat)
    requires i < |log|
    ensures ReplyAt(log + more, i) == ReplyAt(log, i)
  {
    assert (log + more)[..i] == log[..i];
  }

  /** The running attempt stores its next step, whatever the clock. */
  lemma CheckpointSucceeds(log: seq<Op>, key: Key, attempt: int, now: Time, lease: Time)
    requires RowAfter(log, key).Some? && HeldBy(RowAfter(log, key).value, attempt)
    requires |RowAfter(log, key).value.completed| < |RowAfter(log, key).value.steps|
    ensures var r := RowAfter(log, key).value;
            var run := log + [Op(key, Checkpoint(attempt, r.steps[|r.completed|], now, lease))];
            && ReplyAt(run, |log|) == Affected(1)
            && RowAfter(run, key).Some? && HeldBy(RowAfter(run, key).value, attempt)
            && RowAfter(run, key).value.steps == r.steps
            && |RowAfter(run, key).value.completed| == |r.completed| + 1
  {
    var r := RowAfter(log, key).value;
    Issue(log, key, Checkpoint(attempt, r.steps[|r.completed|], now, lease));
  }

  /** One statement that affected a row, and then others that did. */
  lemma OneBefore(log: seq<Op>, op: Op, next: seq<Op>, rest: seq<Op>, all: seq<Op>)
    requires next == log + [op] && all == next + rest && ReplyAt(next, |log|) == Affected(1)
    requires forall i | |next| <= i < |all| :: ReplyAt(all, i) == Affected(1)
    ensures forall i | |log| <= i < |all| :: ReplyAt(all, i) == Affected(1)
  {
    RepliesKept(next, rest, |log|);
  }

  lemma {:induction false} CheckpointsSucceed(log: seq<Op>, key: Key, attempt: int, p: nat, clock: nat -> Time,
                                              lease: nat -> Time)
    requires RowAfter(log, key).Some? && HeldBy(RowAfter(log, key).value, attempt)
    requires p == |RowAfter(log, key).value.completed|
    ensures var r := RowAfter(log, key).value;
            var ops := RemainingSteps(key, attempt, r.steps, p, clock, lease);
            && (forall i | |log| <= i < |log + ops| :: ReplyAt(log + ops, i) == Affected(1))
            && RowAfter(log + ops, key).Some?
            && var r' := RowAfter(log + ops, key).value;
               HeldBy(r', attempt) && r'.steps == r.steps && r'.completed == r.steps
    decreases |RowAfter(log, key).value.steps| - p
  {
    var r := RowAfter(log, key).value;
    var ops := RemainingSteps(key, attempt, r.steps, p, clock, lease);
    if p == |r.steps| {
      assert log + ops == log;
    } else {
      var next, q := log + [ops[0]], p + 1;
      var rest := RemainingSteps(key, attempt, r.steps, q, clock, lease);
      assert ops == [ops[0]] + rest;
      CheckpointSucceeds(log, key, attempt, clock(p), lease(p));
      CheckpointsSucceed(next, key, attempt, q, clock, lease);
      assert next + rest == log + ops;
      OneBefore(log, ops[0], next, rest, log + ops);
    }
  }

  /** The stored row lets a Begin with the same steps resume it at time `now`. */
  predicate Restartable(r: Row, now: Time) {
    && !r.state.Complete?
    && r.attempt < MAX_BIGINT
    && (r.state.Running? ==> r.leaseUntil.Some? && r.leaseUntil.value <= now)
  }

  /** With equal steps, a Begin on a stored row resumes it if and only if the row is not complete, has an
      attempt number to spare and is not under a live lease; a resumption keeps the completed steps. */
  lemma RestartGuardExact(log: seq<Op>, key: Key, now: Time, until: Time)
    requires RowAfter(log, key).Some?
    ensures var r := RowAfter(log, key).value;
            var run := log + [Op(key, Begin(r.steps, now, until))];
            && (Restartable(r, now) <==> ReplyAt(run, |log|) == Began(Resumed, r.attempt + 1, r.completed))
            && (Restartable(r, now) ==>
                  && RowAfter(run, key).Some?
                  && HeldBy(RowAfter(run, key).value, r.attempt + 1)
                  && RowAfter(run, key).value.completed == r.completed
                  && RowAfter(run, key).value.steps == r.steps)
  {
    Issue(log, key, Begin(RowAfter(log, key).value.steps, now, until));
  }

  lemma FinishSucceeds(log: seq<Op>, key: Key, attempt: int, now: Time)
    requires RowAfter(log, key).Some? && HeldBy(RowAfter(log, key).value, attempt)
    requires RowAfter(log, key).value.completed == RowAfter(log, key).value.steps
    ensures var run := log + [Op(key, Finish(attempt, now))];
            && ReplyAt(run, |log|) == Affected(1)
            && RowAfter(run, key).Some? && RowAfter(run, key).value.state.Complete?
            && RowAfter(run, key).value.completed == RowAfter(log, key).value.steps
  {
    Issue(log, key, Finish(attempt, now));
  }

  /** From any reachable execution that is not complete, has an attempt number to spare and is not under a
      live lease, a restarting client succeeds at every statement and completes the execution after
      |steps| - |completed| + 2 of them; the steps already completed are not repeated. */
  lemma RestartCompletes(log: seq<Op>, key: Key, now: Time, until: Time, clock: nat -> Time, lease: nat -> Time)
    requires RowAfter(log, key).Some? && Restartable(RowAfter(log, key).value, now)
    ensures var r := RowAfter(log, key).value;
            var run := log + Recovery(key, r, now, until, clock, lease);
            && |run| == |log| + |r.steps| - |r.completed| + 2
            && ReplyAt(run, |log|) == Began(Resumed, r.attempt + 1, r.completed)
            && (forall i | |log| < i < |run| :: ReplyAt(run, i) == Affected(1))
            && RowAfter(run, key).Some?
            && RowAfter(run, key).value.state.Complete? && RowAfter(run, key).value.completed == r.steps
  {
    var r := RowAfter(log, key).value;
    var first := [Op(key, Begin(r.steps, now, until))];
    var middle := RemainingSteps(key, r.attempt + 1, r.steps, |r.completed|, clock, lease);
    var last := [Op(key, Finish(r.attempt + 1, clock(|r.steps|)))];
    var begun, worked, run := log + first, log + first + middle, log + first + middle + last;
    assert run == log + Recovery(key, r, now, until, clock, lease);
    assert run == begun + (middle + last);
    RestartGuardExact(log, key, now, until);
    RepliesKept(begun, middle + last, |log|);
    WorkCompletes(begun, key, r.attempt + 1, |r.completed|, clock, lease);
  }

  /** The attempt that is running stores the steps from `p` on and completes. */
  lemma WorkCompletes(begun: seq<Op>, key: Key, attempt: int, p: nat, clock: nat -> Time, lease: nat -> Time)
    requires RowAfter(begun, key).Some? && HeldBy(RowAfter(begun, key).value, attempt)
    requires p == |RowAfter(begun, key).value.completed|
    ensures var r := RowAfter(begun, key).value;
            var worked := begun + RemainingSteps(key, attempt, r.steps, p, clock, lease);
            var run := worked + [Op(key, Finish(attempt, clock(|r.steps|)))];
            && (forall i | |begun| <= i < |run| :: ReplyAt(run, i) == Affected(1))
            && RowAfter(run, key).Some?
            && RowAfter(run, key).value.state.Complete? && RowAfter(run, key).value.completed == r.steps
  {
    var r := RowAfter(begun, key).value;
    var worked := begun + RemainingSteps(key, attempt, r.steps, p, clock, lease);
    var last := [Op(key, Finish(attempt, clock(|r.steps|)))];
    CheckpointsSucceed(begun, key, attempt, p, clock, lease);
    FinishSucceeds(worked, key, attempt, clock(|r.steps|));
    forall i | |begun| <= i < |worked + last| ensures ReplyAt(worked + last, i) == Affected(1) {
      if i < |worked| {
        RepliesKept(worked, last, i);
      }
    }
  }
}

/** What holds along every run of the batch table: ordered exactly-once progress, fencing by attempt
    number, and the accounting of attempts. */
module BatchHistory {
  import opened Sql
  import opened BatchStore
  import opened BatchLog

  // ----- how a stored row may change, in one step or many

  ghost predicate Evolves(r: Row, r': Row) {
    && r'.steps == r.steps
    && r.attempt <= r'.attempt
    && r.completed <= r'.completed
    && (r.state.Complete? ==> r' == r.(beginOutcome := r'.beginOutcome))
  }

  lemma ApplyEvolves(key: Key, r: Row, s: Statement)
    requires key.Checks() && Sound(r)
    ensures Apply(key, Some(r), s).0.Some? && Evolves(r, Apply(key, Some(r), s).0.value)
  {
  }

  lemma StepEvolves(log: seq<Op>, key: Key, j: nat)
    requires j < |log| && RowAfter(log[..j], key).Some?
    ensures RowAfter(log[..j + 1], key).Some?
    ensures Evolves(RowAfter(log[..j], key).value, RowAfter(log[..j + 1], key).value)
  {
    Advance(log, key, j);
    ApplyEvolves(key, RowAfter(log[..j], key).value, log[j].statement);
  }

  /** A row, once inserted, is never removed; its steps never change, its attempt and its completed
      steps only grow, and once complete only the reported outcome can change. */
  lemma {:induction false} RowEvolves(log: seq<Op>, key: Key, i: nat, j: nat)
    requires i <= j <= |log|
    requires RowAfter(log[..i], key).Some?
    ensures RowAfter(log[..j], key).Some?
    ensures Evolves(RowAfter(log[..i], key).value, RowAfter(log[..j], key).value)
    decreases j
  {
    if i == j {
    } else {
      RowEvolves(log, key, i, j - 1);
      StepEvolves(log, key, j - 1);
    }
  }

  // ----- the effect of each statement of a run

  datatype Effect = Nothing | Opened | Retried | TookOver | Advanced | Finished | GaveUp

  /** What the statement did to the row: `Retried` resumes a failed attempt, `TookOver` a running one whose
      lease ran out. */
  function EffectOf(key: Key, row: Option<Row>, s: Statement): Effect
    requires SoundAt(key, row)
  {
    match Apply(key, row, s).1
    case Began(Started, _, _) => Opened
    case Began(Resumed, _, _) => if row.Some? && row.value.state.Running? then TookOver else Retried
    case Began(_, _, _) => Nothing
    case Rejected => Nothing
    case Affected(n) =>
      if n == 0 then Nothing
      else if s.Checkpoint? then Advanced
      else if s.Finish? then Finished
      else GaveUp
  }

  /** What the statement at position `i` did to the row under `key`. */
  ghost function EffectAt(log: seq<Op>, key: Key, i: nat): Effect
    requires i < |log|
  {
    if log[i].key != key then Nothing else EffectOf(key, RowAfter(log[..i], key), log[i].statement)
  }

  /** The statement handed out attempt number `attempt`. */
  ghost predicate Issues(log: seq<Op>, key: Key, i: nat, attempt: int) {
    && i < |log| && log[i].key == key
    && ReplyAt(log, i).Began?
    && (ReplyAt(log, i).outcome.Started? || ReplyAt(log, i).outcome.Resumed?)
    && ReplyAt(log, i).attempt == attempt
  }

  /** Which rows each effect leads from and to. */
  ghost predicate Moves(row: Option<Row>, e: Effect, row': Option<Row>) {
    if e == Opened then row.None? && row'.Some? && row'.value.state.Running? && row'.value.attempt == 1
                        && row'.value.completed == []
    else if row.None? then e == Nothing && row'.None?
    else
      && row'.Some?
      && var r, r' := row.value, row'.value;
         match e
         case Nothing => r' == r.(beginOutcome := r'.beginOutcome)
         case Retried => && r.state.Failed? && r'.state.Running?
                         && r'.attempt == r.attempt + 1 && r'.completed == r.completed
         case TookOver => && r.state.Running? && r'.state.Running?
                          && r'.attempt == r.attempt + 1 && r'.completed == r.completed
         case Advanced => r.state.Running? && r'.state.Running? && r'.attempt == r.attempt
                          && |r'.completed| == |r.completed| + 1
         case Finished => && r.state.Running? && r'.state.Complete?
                          && r'.attempt == r.attempt && r'.completed == r.completed
         case GaveUp => r.state.Running? && r'.state.Failed? && r'.attempt == r.attempt && r'.completed == r.completed
  }

  lemma ApplyMoves(key: Key, row: Option<Row>, s: Statement)
    requires SoundAt(key, row)
    ensures Moves(row, EffectOf(key, row, s), Apply(key, row, s).0)
  {
  }

  lemma EffectMoves(log: seq<Op>, key: Key, i: nat)
    requires i < |log|
    ensures Moves(RowAfter(log[..i], key), EffectAt(log, key, i), RowAfter(log[..i + 1], key))
  {
    Advance(log, key, i);
    ApplyMoves(key, RowAfter(log[..i], key), log[i].statement);
  }

  // ----- refused Begins

  /** A Begin that is not granted changes nothing but `begin_outcome`, and replies with the stored attempt. */
  lemma RefusedBeginOnlyReports(log: seq<Op>, key: Key, i: nat)
    requires i < |log| && log[i].key == key && log[i].statement.Begin? && EffectAt(log, key, i) == Nothing
    ensures RowAfter(log[..i], key).None? ==>
              RowAfter(log[..i + 1], key).None? && ReplyAt(log, i) == Rejected
    ensures RowAfter(log[..i], key).Some? ==>
              && RowAfter(log[..i + 1], key).Some?
              && var r, r' := RowAfter(log[..i], key).value, RowAfter(log[..i + 1], key).value;
                 && r' == r.(beginOutcome := r'.beginOutcome)
                 && ReplyAt(log, i) in {Reply.Rejected, Reply.Began(r'.beginOutcome, r.attempt, r.completed)}
  {
    Advance(log, key, i);
  }

  /** A Begin that resumes takes the next attempt number and a new lease, clears the failure and keeps the
      steps and what has been completed of them. */
  lemma ResumedBeginChanges(log: seq<Op>, key: Key, i: nat)
    requires i < |log| && EffectAt(log, key, i) in {Retried, TookOver}
    ensures log[i].statement.Begin? && RowAfter(log[..i], key).Some?
    ensures var r, s := RowAfter(log[..i], key).value, log[i].statement;
            && s.steps == r.steps
            && ReplyAt(log, i) == Reply.Began(Resumed, r.attempt + 1, r.completed)
            && r.attempt < MAX_BIGINT
            && RowAfter(log[..i + 1], key)
               == Some(Row(r.steps, r.attempt + 1, r.completed, Running, Some(s.lease), None, None, Resumed, s.now))
  {
    Advance(log, key, i);
  }

  // ----- fencing

  lemma IssueSetsAttempt(log: seq<Op>, key: Key, i: nat, attempt: int)
    requires Issues(log, key, i, attempt)
    ensures RowAfter(log[..i + 1], key).Some? && HeldBy(RowAfter(log[..i + 1], key).value, attempt)
    ensures RowAfter(log[..i], key).Some? ==> RowAfter(log[..i], key).value.attempt == attempt - 1
    ensures RowAfter(log[..i], key).None? ==> attempt == 1
  {
    Advance(log, key, i);
  }

  /** No attempt number is handed out twice, and later ones are larger. */
  lemma AttemptsIssuedOnce(log: seq<Op>, key: Key, i: nat, j: nat, a: int, b: int)
    requires i < j < |log| && Issues(log, key, i, a) && Issues(log, key, j, b)
    ensures a < b
  {
    IssueSetsAttempt(log, key, i, a);
    IssueSetsAttempt(log, key, j, b);
    RowEvolves(log, key, i + 1, j);
  }

  /** Once attempt `a` has been issued, nobody holding an older attempt can change the row, whatever
      the clocks say. */
  lemma StaleAttemptsFenced(log: seq<Op>, key: Key, i: nat, j: nat, a: int)
    requires i < j < |log| && Issues(log, key, i, a)
    requires log[j].key == key && !log[j].statement.Begin? && log[j].statement.attempt < a
    ensures ReplyAt(log, j) == Affected(0)
    ensures RowAfter(log[..j + 1], key) == RowAfter(log[..j], key)
  {
    IssueSetsAttempt(log, key, i, a);
    RowEvolves(log, key, i + 1, j);
    Advance(log, key, j);
  }

  // ----- exactly-once, in-order progress

  /** The positions, among the first `n` statements, of the checkpoints that took effect, oldest first. */
  ghost function Checkpoints(log: seq<Op>, key: Key, n: nat): (history: seq<nat>)
    requires n <= |log|
    ensures forall i | i in history :: i < n
  {
    if n == 0 then []
    else Checkpoints(log, key, n - 1) + if EffectAt(log, key, n - 1) == Advanced then [n - 1] else []
  }

  /** The statement at position `i` is a checkpoint of `step` that found `p` steps completed. */
  ghost predicate Stored(log: seq<Op>, key: Key, i: nat, p: nat, step: string) {
    && i < |log| && log[i].key == key && log[i].statement.Checkpoint? && log[i].statement.step == step
    && RowAfter(log[..i], key).Some? && |RowAfter(log[..i], key).value.completed| == p
  }

  function AttemptAt(log: seq<Op>, i: nat): int {
    if i < |log| && !log[i].statement.Begin? then log[i].statement.attempt else 0
  }

  function Attempts(log: seq<Op>): nat -> int {
    (i: nat) => AttemptAt(log, i)
  }

  ghost function Storing(log: seq<Op>, key: Key): (nat, nat, string) -> bool {
    (i: nat, p: nat, step: string) => Stored(log, key, i, p, step)
  }

  /** The p-th position of `history` stored the p-th element of `completed`; positions ascend, and the
      attempts at them never decrease nor exceed `bound`. */
  ghost predicate Orderly(stored: (nat, nat, string) -> bool, attemptAt: nat -> int, history: seq<nat>,
                          completed: seq<string>, bound: int) {
    && |history| == |completed|
    && (forall p | 0 <= p < |history| :: stored(history[p], p, completed[p]))
    && (forall p, q | 0 <= p < q < |history| ::
          history[p] < history[q] && attemptAt(history[p]) <= attemptAt(history[q]))
    && (forall p | 0 <= p < |history| :: attemptAt(history[p]) <= bound)
  }

  /** `history` accounts for the completed steps of `r`: its p-th statement stored step p, positions
      ascend, and the attempts that issued them never decrease. */
  ghost predicate Accounts(log: seq<Op>, key: Key, history: seq<nat>, r: Row) {
    Orderly(Storing(log, key), Attempts(log), history, r.completed, r.attempt)
  }

  lemma AdvancedStores(log: seq<Op>, key: Key, i: nat)
    requires i < |log| && EffectAt(log, key, i) == Advanced
    ensures RowAfter(log[..i], key).Some? && RowAfter(log[..i + 1], key).Some?
    ensures var r, r' := RowAfter(log[..i], key).value, RowAfter(log[..i + 1], key).value;
            && Stored(log, key, i, |r.completed|, log[i].statement.step)
            && r'.completed == r.completed + [log[i].statement.step]
            && log[i].statement.attempt == r.attempt == r'.attempt
  {
    Advance(log, key, i);
  }

  lemma OrderlyExtend(stored: (nat, nat, string) -> bool, attemptAt: nat -> int, history: seq<nat>,
                      completed: seq<string>, bound: int, i: nat, step: string)
    requires Orderly(stored, attemptAt, history, completed, bound)
    requires forall x | x in history :: x < i
    requires stored(i, |completed|, step) && attemptAt(i) == bound
    ensures Orderly(stored, attemptAt, history + [i], completed + [step], bound)
  {
    var longer := history + [i];
    assert forall p | 0 <= p < |history| :: longer[p] == history[p] && history[p] in history;
  }

  lemma OrderlyBound(stored: (nat, nat, string) -> bool, attemptAt: nat -> int, history: seq<nat>,
                     completed: seq<string>, bound: int, bound': int)
    requires Orderly(stored, attemptAt, history, completed, bound) && bound <= bound'
    ensures Orderly(stored, attemptAt, history, completed, bound')
  {
  }

  ghost predicate AccountsFor(log: seq<Op>, key: Key, history: seq<nat>, row: Option<Row>) {
    if row.None? then history == [] else Accounts(log, key, history, row.value)
  }

  lemma AdvancedAccounts(log: seq<Op>, key: Key, n: nat)
    requires n < |log| && EffectAt(log, key, n) == Advanced
    requires AccountsFor(log, key, Checkpoints(log, key, n), RowAfter(log[..n], key))
    ensures AccountsFor(log, key, Checkpoints(log, key, n + 1), RowAfter(log[..n + 1], key))
  {
    AdvancedStores(log, key, n);
    var r := RowAfter(log[..n], key).value;
    OrderlyExtend(Storing(log, key), Attempts(log), Checkpoints(log, key, n), r.completed, r.attempt, n,
                  log[n].statement.step);
  }

  lemma OtherwiseAccounts(log: seq<Op>, key: Key, n: nat)
    requires n < |log| && EffectAt(log, key, n) != Advanced
    requires AccountsFor(log, key, Checkpoints(log, key, n), RowAfter(log[..n], key))
    ensures AccountsFor(log, key, Checkpoints(log, key, n + 1), RowAfter(log[..n + 1], key))
  {
    EffectMoves(log, key, n);
    var row, row' := RowAfter(log[..n], key), RowAfter(log[..n + 1], key);
    assert Checkpoints(log, key, n + 1) == Checkpoints(log, key, n);
    if row.Some? {
      OrderlyBound(Storing(log, key), Attempts(log), Checkpoints(log, key, n),
                   row.value.completed, row.value.attempt, row'.value.attempt);
    }
  }

  lemma {:induction false} CheckpointsAccount(log: seq<Op>, key: Key, n: nat)
    requires n <= |log|
    ensures AccountsFor(log, key, Checkpoints(log, key, n), RowAfter(log[..n], key))
  {
    if n == 0 {
    } else {
      CheckpointsAccount(log, key, n - 1);
      if EffectAt(log, key, n - 1) == Advanced {
        AdvancedAccounts(log, key, n - 1);
      } else {
        OtherwiseAccounts(log, key, n - 1);
      }
    }
  }

  lemma {:induction false} CheckpointsAreTheEffectiveOnes(log: seq<Op>, key: Key, n: nat, i: nat)
    requires i < n <= |log|
    ensures i in Checkpoints(log, key, n) <==> EffectAt(log, key, i) == Advanced
  {
    var m := n - 1;
    CheckpointsMore(log, key, m, n);
    if i == m {
    } else {
      CheckpointsAreTheEffectiveOnes(log, key, m, i);
    }
  }

  lemma CheckpointsMore(log: seq<Op>, key: Key, m: nat, n: nat)
    requires n == m + 1 <= |log|
    ensures forall i | i in Checkpoints(log, key, m) :: i < m
    ensures Checkpoints(log, key, n)
            == Checkpoints(log, key, m) + if EffectAt(log, key, m) == Advanced then [m] else []
  {
  }

  /** Every run leaves `completed_steps` equal to the history of effective checkpoints and a prefix of
      `steps`. Position p was stored by exactly one statement, the p-th of that history; the attempts
      along it never decrease; and a complete row has completed every step. */
  lemma ExactlyOnceInOrder(log: seq<Op>, key: Key)
    requires RowAfter(log, key).Some?
    ensures Accounts(log, key, Checkpoints(log, key, |log|), RowAfter(log, key).value)
    ensures forall i | 0 <= i < |log| :: i in Checkpoints(log, key, |log|) <==> EffectAt(log, key, i) == Advanced
    ensures RowAfter(log, key).value.completed <= RowAfter(log, key).value.steps
    ensures RowAfter(log, key).value.state.Complete? ==>
              RowAfter(log, key).value.completed == RowAfter(log, key).value.steps
  {
    assert log[..|log|] == log;
    CheckpointsAccount(log, key, |log|);
    forall i | 0 <= i < |log| ensures i in Checkpoints(log, key, |log|) <==> EffectAt(log, key, i) == Advanced {
      CheckpointsAreTheEffectiveOnes(log, key, |log|, i);
    }
  }

  /** A complete execution stays complete: later statements have no effect and Begin never resumes it. */
  lemma CompleteForever(log: seq<Op>, key: Key, i: nat, j: nat)
    requires i <= j < |log|
    requires RowAfter(log[..i], key).Some? && RowAfter(log[..i], key).value.state.Complete?
    ensures EffectAt(log, key, j) == Nothing
    ensures RowAfter(log[..j + 1], key).Some?
    ensures RowAfter(log[..j + 1], key).value
            == RowAfter(log[..i], key).value.(beginOutcome := RowAfter(log[..j + 1], key).value.beginOutcome)
    ensures log[j].key == key && log[j].statement.Begin? && ReplyAt(log, j).Began? ==>
              ReplyAt(log, j).outcome == if log[j].statement.steps == RowAfter(log[..i], key).value.steps
                                         then AlreadyComplete else Changed
  {
    RowEvolves(log, key, i, j);
    RowEvolves(log, key, i, j + 1);
    Advance(log, key, j);
  }

  // ----- accounting for attempts

  /** How many statements of the run had effect `e` on `key`. */
  ghost function Count(log: seq<Op>, key: Key, e: Effect): nat {
    if log == [] then 0
    else
      var n := |log| - 1;
      Count(log[..n], key, e) + if EffectAt(log, key, n) == e then 1 else 0
  }

  ghost function Issued(log: seq<Op>, key: Key): nat {
    Count(log, key, Opened) + Count(log, key, Retried) + Count(log, key, TookOver)
  }

  ghost function EffectiveStatements(log: seq<Op>, key: Key): nat {
    Issued(log, key) + Count(log, key, Advanced) + Count(log, key, Finished) + Count(log, key, GaveUp)
  }

  /** The accounts of a key: how often each effect occurred, against the row they produced. */
  ghost predicate Balanced(row: Option<Row>, count: Effect -> nat) {
    if row.None? then forall e | e != Nothing :: count(e) == 0
    else
      var r := row.value;
      && count(Opened) == 1
      && r.attempt == count(Opened) + count(Retried) + count(TookOver)
      && r.attempt == count(GaveUp) + count(Finished) + count(TookOver) + (if r.state.Running? then 1 else 0)
      && count(Finished) == (if r.state.Complete? then 1 else 0)
      && count(Advanced) == |r.completed|
  }

  lemma BalanceKept(row: Option<Row>, e: Effect, row': Option<Row>, count: Effect -> nat, count': Effect -> nat)
    requires Moves(row, e, row') && Balanced(row, count)
    requires forall x :: count'(x) == count(x) + if x == e then 1 else 0
    ensures Balanced(row', count')
  {
  }

  /** Every attempt number is spent exactly once: on a failure, on the completion, on being taken over
      while running, or it is the one running now. A key completes at most once. */
  lemma {:induction false} AttemptsConserved(log: seq<Op>, key: Key)
    ensures Balanced(RowAfter(log, key), e => Count(log, key, e))
  {
    if log == [] {
    } else {
      var n := |log| - 1;
      AttemptsConserved(log[..n], key);
      EffectMoves(log, key, n);
      assert log[..n + 1] == log;
      BalanceKept(RowAfter(log[..n], key), EffectAt(log, key, n), RowAfter(log, key),
                  e => Count(log[..n], key, e), e => Count(log, key, e));
    }
  }

  /** The work a run can do on one key is bounded by the attempts it spends. */
  lemma EffectiveStatementsBounded(log: seq<Op>, key: Key)
    requires RowAfter(log, key).Some?
    ensures var r := RowAfter(log, key).value;
            EffectiveStatements(log, key) <= 2 * r.attempt + |r.steps| && r.attempt <= MAX_BIGINT
  {
    AttemptsConserved(log, key);
  }
}

/** Whole runs of split claims: each is equivalent to a run of atomic statements, so everything proved
    about atomic runs holds of them too. */
module OutboxSerial {
  import opened Sql
  import opened OutboxStore
  import opened OutboxLog
  import opened OutboxLocks

  ghost function Exec(lt: Collation, events: seq<Event>): Split {
    if events == [] then EMPTY
    else
      var s, e := Exec(lt, events[..|events| - 1]), events[|events| - 1];
      if Enabled(lt, s, e) then Next(lt, s, e) else s
  }

  ghost predicate EnabledAt(lt: Collation, events: seq<Event>, i: nat)
    requires i < |events|
  {
    Enabled(lt, Exec(lt, events[..i]), events[i])
  }

  /** A run: every event was possible when it happened. */
  ghost predicate Runs(lt: Collation, events: seq<Event>) {
    forall i | 0 <= i < |events| :: EnabledAt(lt, events, i)
  }

  /** The transactions that commit in the run. */
  function Committed(events: seq<Event>): set<Tx> {
    set i | 0 <= i < |events| && events[i].Commit? :: events[i].tx
  }

  /** The equivalent atomic run. */
  ghost function AtomicLog(lt: Collation, events: seq<Event>, winners: set<Tx>): seq<Statement> {
    if events == [] then []
    else
      var before := events[..|events| - 1];
      AtomicLog(lt, before, winners) + Atomic(Exec(lt, before), events[|events| - 1], winners)
  }

  lemma Forward(lt: Collation, events: seq<Event>, i: nat, j: nat)
    requires j == i + 1 <= |events| && EnabledAt(lt, events, i)
    ensures Exec(lt, events[..j]) == Next(lt, Exec(lt, events[..i]), events[i])
  {
    assert events[..j][..i] == events[..i];
  }

  lemma AtomicForward(lt: Collation, events: seq<Event>, winners: set<Tx>, i: nat, j: nat)
    requires j == i + 1 <= |events|
    ensures AtomicLog(lt, events[..j], winners)
            == AtomicLog(lt, events[..i], winners) + Atomic(Exec(lt, events[..i]), events[i], winners)
  {
    assert events[..j][..i] == events[..i];
  }

  lemma {:induction false} InvHolds(lt: Collation, events: seq<Event>, n: nat)
    requires Runs(lt, events) && n <= |events|
    ensures Inv(Exec(lt, events[..n]))
  {
    if n == 0 {
    } else {
      InvHolds(lt, events, n - 1);
      assert EnabledAt(lt, events, n - 1);
      Forward(lt, events, n - 1, n);
      StepKeepsInv(lt, Exec(lt, events[..n - 1]), events[n - 1]);
    }
  }

  // ----- transactions end once

  /** A transaction known in `s` is known in `s'`; once ended it stays so, and until then it keeps its locks. */
  ghost predicate Keeps(s: Split, s': Split, tx: Tx) {
    && (tx in s'.pending || tx in s'.ended)
    && (tx in s.ended ==> tx in s'.ended)
    && (tx in s.pending && tx !in s'.ended ==>
          && tx in s'.pending
          && s'.pending[tx].request == s.pending[tx].request
          && s'.pending[tx].candidates == s.pending[tx].candidates
          && s'.pending[tx].taken == s.pending[tx].taken)
  }

  lemma StepKeeps(lt: Collation, s: Split, e: Event, tx: Tx)
    requires Enabled(lt, s, e) && (tx in s.pending || tx in s.ended)
    ensures Keeps(s, Next(lt, s, e), tx)
  {
  }

  lemma KeepsOn(s: Split, s': Split, s'': Split, tx: Tx)
    requires (tx in s.pending || tx in s.ended) && Keeps(s, s', tx) && Keeps(s', s'', tx)
    ensures Keeps(s, s'', tx)
  {
  }

  lemma {:induction false} TransactionStays(lt: Collation, events: seq<Event>, tx: Tx, i: nat, j: nat)
    requires Runs(lt, events) && i <= j <= |events|
    requires var s := Exec(lt, events[..i]); tx in s.pending || tx in s.ended
    ensures Keeps(Exec(lt, events[..i]), Exec(lt, events[..j]), tx)
    decreases j
  {
    if i == j {
    } else {
      TransactionStays(lt, events, tx, i, j - 1);
      assert EnabledAt(lt, events, j - 1);
      Forward(lt, events, j - 1, j);
      StepKeeps(lt, Exec(lt, events[..j - 1]), events[j - 1], tx);
      KeepsOn(Exec(lt, events[..i]), Exec(lt, events[..j - 1]), Exec(lt, events[..j]), tx);
    }
  }

  lemma {:induction false} PendingNotEnded(lt: Collation, events: seq<Event>, n: nat)
    requires Runs(lt, events) && n <= |events|
    ensures Exec(lt, events[..n]).pending.Keys !! Exec(lt, events[..n]).ended
  {
    if n == 0 {
    } else {
      PendingNotEnded(lt, events, n - 1);
      assert EnabledAt(lt, events, n - 1);
      Forward(lt, events, n - 1, n);
    }
  }

  /** A transaction that locked at event `i` and commits at event `j` still holds what it locked. */
  lemma ClaimPersists(lt: Collation, events: seq<Event>, i: nat, j: nat, tx: Tx, r: Request,
                      passed: set<Id>)
    requires Runs(lt, events) && i < j < |events| && events[i] == Lock(tx, r, passed) && events[j] == Commit(tx)
    ensures Enabled(lt, Exec(lt, events[..i]), events[i])
    ensures tx in Exec(lt, events[..j]).pending
    ensures var p, p' := Next(lt, Exec(lt, events[..i]), events[i]).pending[tx], Exec(lt, events[..j]).pending[tx];
            && p'.request == p.request && p'.candidates == p.candidates && p'.taken == p.taken
            && p'.versions.Some? && Selected(p') && Prepared(p')
  {
    assert EnabledAt(lt, events, i) && EnabledAt(lt, events, j);
    Forward(lt, events, i, i + 1);
    InvHolds(lt, events, j);
    PendingNotEnded(lt, events, j);
    TransactionStays(lt, events, tx, i + 1, j);
  }

  /** A transaction that has ended does nothing more. */
  lemma Ends(lt: Collation, events: seq<Event>, i: nat, next: nat, j: nat)
    requires Runs(lt, events) && i + 1 == next <= j <= |events| && (events[i].Commit? || events[i].Abort?)
    ensures events[i].tx in Exec(lt, events[..j]).ended && events[i].tx !in Exec(lt, events[..j]).pending
  {
    assert EnabledAt(lt, events, i);
    Forward(lt, events, i, next);
    TransactionStays(lt, events, events[i].tx, next, j);
    PendingNotEnded(lt, events, j);
  }

  /** A transaction that commits is not also rolled back, and takes its locks before. */
  lemma CommitsOnly(lt: Collation, events: seq<Event>, i: nat, j: nat)
    requires Runs(lt, events) && i < |events| && j < |events| && events[j].Commit?
    requires events[i].Abort? || events[i].Lock?
    ensures events[i].Abort? ==> events[i].tx != events[j].tx
    ensures events[i].Lock? && events[i].tx == events[j].tx ==> i < j
  {
    assert EnabledAt(lt, events, i) && EnabledAt(lt, events, j);
    if j < i {
      Ends(lt, events, j, j + 1, i);
    } else if events[i].Abort? && i < j {
      Ends(lt, events, i, i + 1, j);
    }
  }

  /** What a claim that commits writes meets the CHECK constraints: its UPDATE was not stopped. */
  lemma WinnerWritable(lt: Collation, events: seq<Event>, i: nat, j: nat)
    requires Runs(lt, events) && i < j < |events| && events[i].Lock? && events[j] == Commit(events[i].tx)
    ensures Writable(lt, Exec(lt, events[..i]), events[i].request, events[i].passed)
  {
    var s, r, passed := Exec(lt, events[..i]), events[i].request, events[i].passed;
    ClaimPersists(lt, events, i, j, events[i].tx, r, passed);
    ChosenWait(lt, s, r, passed);
    assert Rows(s.table, Ids(Chosen(lt, s, r, passed))).Keys == Ids(Chosen(lt, s, r, passed));
  }

  lemma CommittedRespected(lt: Collation, events: seq<Event>, i: nat)
    requires Runs(lt, events) && i < |events|
    ensures Respects(lt, Exec(lt, events[..i]), events[i], Committed(events))
  {
    if (events[i].Abort? || events[i].Lock?) && events[i].tx in Committed(events) {
      var j :| 0 <= j < |events| && events[j].Commit? && events[j].tx == events[i].tx;
      CommitsOnly(lt, events, i, j);
      if events[i].Lock? {
        WinnerWritable(lt, events, i, j);
      }
    }
  }

  // ----- the equivalence

  lemma ReplayMore(lt: Collation, log: seq<Statement>, s: Statement)
    ensures Replay(lt, log + [s]) == Execute(lt, Replay(lt, log), s).0
  {
    var longer := log + [s];
    assert longer[..|longer| - 1] == log && longer[|longer| - 1] == s;
  }

  lemma IssuedMore(lt: Collation, log: seq<Statement>, s: Statement)
    ensures Issued(lt, log + [s]) == Issued(lt, log) + Generated(lt, Replay(lt, log), s)
  {
    var longer := log + [s];
    assert longer[..|longer| - 1] == log && longer[|longer| - 1] == s;
  }

  lemma LegalMore(lt: Collation, log: seq<Statement>, s: Statement)
    requires Legal(lt, log) && FreshReceipts(lt, Replay(lt, log), Issued(lt, log), s)
    ensures Legal(lt, log + [s])
  {
    forall i | 0 <= i < |log + [s]| ensures FreshAt(lt, log + [s], i) {
      assert (log + [s])[..i] == log[..i];
      assert i < |log| ==> FreshAt(lt, log, i);
      assert i == |log| ==> log[..i] == log;
    }
  }

  lemma AtMostOne(s: Split, e: Event, winners: set<Tx>)
    ensures Atomic(s, e, winners) == [] || Atomic(s, e, winners) == [Atomic(s, e, winners)[0]]
  {
  }

  lemma LogStepSimulates(lt: Collation, s: Split, e: Event, winners: set<Tx>, log: seq<Statement>)
    requires Inv(s) && Enabled(lt, s, e) && Respects(lt, s, e, winners) && Overlays(s, winners, Replay(lt, log))
    ensures Overlays(Next(lt, s, e), winners, Replay(lt, log + Atomic(s, e, winners)))
  {
    StepSimulates(lt, s, e, winners, Replay(lt, log));
    AtMostOne(s, e, winners);
    if Atomic(s, e, winners) == [] {
      assert log + Atomic(s, e, winners) == log;
    } else {
      ReplayMore(lt, log, Atomic(s, e, winners)[0]);
    }
  }

  /** At every point the atomic run has produced the committed table with the winning claims applied early. */
  lemma {:induction false} Simulates(lt: Collation, events: seq<Event>, n: nat)
    requires Runs(lt, events) && n <= |events|
    ensures Overlays(Exec(lt, events[..n]), Committed(events),
                     Replay(lt, AtomicLog(lt, events[..n], Committed(events))))
  {
    if n == 0 {
    } else {
      var winners := Committed(events);
      Simulates(lt, events, n - 1);
      InvHolds(lt, events, n - 1);
      CommittedRespected(lt, events, n - 1);
      assert EnabledAt(lt, events, n - 1);
      LogStepSimulates(lt, Exec(lt, events[..n - 1]), events[n - 1], winners, AtomicLog(lt, events[..n - 1], winners));
      Forward(lt, events, n - 1, n);
      AtomicForward(lt, events, winners, n - 1, n);
    }
  }

  lemma LockIsFresh(lt: Collation, s: Split, winners: set<Tx>, t: Table, issued: set<string>, tx: Tx, r: Request,
                    passed: set<Id>)
    requires Enabled(lt, s, Lock(tx, r, passed)) && Overlays(s, winners, t) && issued <= s.issued
    ensures FreshReceipts(lt, t, issued, Atomically(s, r, passed))
    ensures Generated(lt, t, Atomically(s, r, passed)) == Generated(lt, s.table, Atomically(s, r, passed))
  {
    SameSelection(lt, s, winners, t, r, passed);
  }

  lemma LogStepLegal(lt: Collation, s: Split, e: Event, winners: set<Tx>, log: seq<Statement>)
    requires Enabled(lt, s, e) && Overlays(s, winners, Replay(lt, log))
    requires Legal(lt, log) && Issued(lt, log) <= s.issued
    ensures Legal(lt, log + Atomic(s, e, winners))
    ensures Issued(lt, log + Atomic(s, e, winners)) <= Next(lt, s, e).issued
  {
    AtMostOne(s, e, winners);
    if Atomic(s, e, winners) == [] {
      assert log + Atomic(s, e, winners) == log;
    } else {
      var statement := Atomic(s, e, winners)[0];
      if e.Lock? {
        LockIsFresh(lt, s, winners, Replay(lt, log), Issued(lt, log), e.tx, e.request, e.passed);
      }
      IssuedMore(lt, log, statement);
      LegalMore(lt, log, statement);
    }
  }

  /** The atomic run generates receipts properly, so the results about legal atomic runs apply to it. */
  lemma {:induction false} AtomicRunLegal(lt: Collation, events: seq<Event>, n: nat)
    requires Runs(lt, events) && n <= |events|
    ensures Legal(lt, AtomicLog(lt, events[..n], Committed(events)))
    ensures Issued(lt, AtomicLog(lt, events[..n], Committed(events))) <= Exec(lt, events[..n]).issued
  {
    if n == 0 {
    } else {
      var winners := Committed(events);
      AtomicRunLegal(lt, events, n - 1);
      Simulates(lt, events, n - 1);
      assert EnabledAt(lt, events, n - 1);
      LogStepLegal(lt, Exec(lt, events[..n - 1]), events[n - 1], winners, AtomicLog(lt, events[..n - 1], winners));
      Forward(lt, events, n - 1, n);
      AtomicForward(lt, events, winners, n - 1, n);
    }
  }

  lemma NoWinnerPending(lt: Collation, events: seq<Event>, tx: Tx)
    requires Runs(lt, events) && tx in Committed(events)
    ensures tx !in Exec(lt, events).pending
  {
    var n := |events|;
    assert events[..n] == events;
    var j :| 0 <= j < n && events[j].Commit? && events[j].tx == tx;
    assert EnabledAt(lt, events, j);
    Forward(lt, events, j, j + 1);
    TransactionStays(lt, events, tx, j + 1, n);
    PendingNotEnded(lt, events, n);
  }

  lemma NothingLeftToOverlay(s: Split, winners: set<Tx>, t: Table)
    requires Overlays(s, winners, t) && forall tx | tx in s.pending :: tx !in winners
    ensures s.table == t
  {
    assert forall id :: !Won(s, winners, id);
  }

  /** Every run of split claims interleaved with other statements leaves the committed table that its
      atomic run leaves; claims that do not commit have no part in that run. */
  lemma SplitRunsSerialise(lt: Collation, events: seq<Event>)
    requires Runs(lt, events)
    ensures Exec(lt, events).table == Replay(lt, AtomicLog(lt, events, Committed(events)))
    ensures Legal(lt, AtomicLog(lt, events, Committed(events)))
  {
    var n := |events|;
    assert events[..n] == events;
    Simulates(lt, events, n);
    AtomicRunLegal(lt, events, n);
    forall tx | tx in Exec(lt, events).pending ensures tx !in Committed(events) {
      if tx in Committed(events) {
        NoWinnerPending(lt, events, tx);
      }
    }
    NothingLeftToOverlay(Exec(lt, events), Committed(events), Replay(lt, AtomicLog(lt, events, Committed(events))));
  }

  // ----- what a committed claim returns

  /** The claim's UPDATE has run and covers every candidate. */
  predicate Returnable(p: Pending) {
    p.versions.Some? && forall c | c in p.candidates :: c.id in p.versions.value && p.versions.value[c.id].receipt.Some?
  }

  /** What an atomic claim of the same rows, as they were when locked, delivers. */
  predicate Answers(p: Pending, deliveries: seq<Delivery>) {
    && |deliveries| == |p.candidates|
    && forall i | 0 <= i < |deliveries| ::
         var id := p.candidates[i].id;
         && id in p.taken && p.taken[id].attempt < MAX_BIGINT
         && deliveries[i] == Delivery(id, p.taken[id].content, p.taken[id].occurredAt, p.request.uuid(id),
                                      p.taken[id].attempt + 1)
  }

  lemma CommitAnswers(p: Pending)
    requires Selected(p) && Prepared(p) && p.versions.Some?
    ensures Returnable(p) && Answers(p, Deliveries(p.versions.value, p.candidates))
  {
    forall c | c in p.candidates
      ensures && c.id in p.taken && Eligible(p.taken[c.id], p.request.now)
              && c.id in p.versions.value
              && p.versions.value[c.id]
                 == ClaimedRow(p.taken[c.id], p.request.owner, p.request.lease, p.request.uuid(c.id))
    {
    }
    forall i | 0 <= i < |p.candidates| ensures p.candidates[i] in p.candidates {}
  }

  lemma LockAnswers(lt: Collation, s: Split, e: Event, winners: set<Tx>, t: Table)
    requires Enabled(lt, s, e) && e.Lock? && Overlays(s, winners, t) && Writable(lt, s, e.request, e.passed)
    ensures var reply := Execute(lt, t, Atomically(s, e.request, e.passed)).1;
            reply.Delivered? && Answers(Next(lt, s, e).pending[e.tx], reply.deliveries)
  {
    ChosenWait(lt, s, e.request, e.passed);
    SameSelection(lt, s, winners, t, e.request, e.passed);
    AtomicClaimWrites(lt, s, winners, t, e.request, e.passed);
    var c := Chosen(lt, s, e.request, e.passed);
    forall i | 0 <= i < |c|
      ensures c[i].id in Ids(c) && c[i].id in s.table && Eligible(s.table[c[i].id], e.request.now)
    {
      assert c[i] in c;
    }
  }

  lemma AnswersUnique(p: Pending, p': Pending, a: seq<Delivery>, b: seq<Delivery>)
    requires Answers(p, a) && Answers(p', b)
    requires p.request == p'.request && p.candidates == p'.candidates && p.taken == p'.taken
    ensures a == b
  {
  }

  lemma AtomicLogGrows(lt: Collation, events: seq<Event>, winners: set<Tx>, i: nat, j: nat)
    requires i <= j <= |events|
    ensures AtomicLog(lt, events[..i], winners) <= AtomicLog(lt, events[..j], winners)
    decreases j
  {
    if i == j {
    } else {
      AtomicLogGrows(lt, events, winners, i, j - 1);
      AtomicForward(lt, events, winners, j - 1, j);
    }
  }

  /** The place of a winning lock in the atomic run. */
  lemma LockPlace(lt: Collation, events: seq<Event>, i: nat, tx: Tx, r: Request, passed: set<Id>)
    requires i < |events| && events[i] == Lock(tx, r, passed) && tx in Committed(events)
    ensures var log, before := AtomicLog(lt, events, Committed(events)), AtomicLog(lt, events[..i], Committed(events));
            && |before| < |log| && log[..|before|] == before
            && log[|before|] == Atomically(Exec(lt, events[..i]), r, passed)
  {
    AtomicForward(lt, events, Committed(events), i, i + 1);
    AtomicLogGrows(lt, events, Committed(events), i + 1, |events|);
    assert events[..|events|] == events;
  }

  /** A claim that locks at event `i` and commits at event `j` returns exactly what the atomic claim at its
      place in the atomic run delivers: that claim saw the table as committed when the locks were taken (and
      the earlier locked winning claims applied) and skipped the rows locked by others or passed over. */
  lemma CommittedClaimIsAtomic(lt: Collation, events: seq<Event>, i: nat, j: nat, tx: Tx, r: Request,
                      passed: set<Id>)
    requires Runs(lt, events) && i < j < |events| && events[i] == Lock(tx, r, passed) && events[j] == Commit(tx)
    ensures var log := AtomicLog(lt, events, Committed(events));
            var at := |AtomicLog(lt, events[..i], Committed(events))|;
            && tx in Exec(lt, events[..j]).pending
            && at < |log|
            && log[at] == Atomically(Exec(lt, events[..i]), r, passed)
            && var p := Exec(lt, events[..j]).pending[tx];
               Returnable(p) && ReplyAt(lt, log, at) == Delivered(Deliveries(p.versions.value, p.candidates))
  {
    assert tx in Committed(events);
    ClaimPersists(lt, events, i, j, tx, r, passed);
    LockPlace(lt, events, i, tx, r, passed);
    Simulates(lt, events, i);
    WinnerWritable(lt, events, i, j);
    var s, p := Exec(lt, events[..i]), Exec(lt, events[..j]).pending[tx];
    var before := AtomicLog(lt, events[..i], Committed(events));
    LockAnswers(lt, s, events[i], Committed(events), Replay(lt, before));
    CommitAnswers(p);
    var reply := Execute(lt, Replay(lt, before), Atomically(s, r, passed)).1;
    AnswersUnique(Next(lt, s, events[i]).pending[tx], p, reply.deliveries, Deliveries(p.versions.value, p.candidates));
  }

  /** Statements of other clients reply as they do in the atomic run. */
  lemma OthersReplyAlike(lt: Collation, events: seq<Event>, i: nat)
    requires Runs(lt, events) && i < |events| && events[i].Other?
    ensures Execute(lt, Exec(lt, events[..i]).table, events[i].statement).1
            == Execute(lt, Replay(lt, AtomicLog(lt, events[..i], Committed(events))), events[i].statement).1
  {
    InvHolds(lt, events, i);
    Simulates(lt, events, i);
    assert EnabledAt(lt, events, i);
    var s, t := Exec(lt, events[..i]), Replay(lt, AtomicLog(lt, events[..i], Committed(events)));
    match events[i].statement
    case Insert(_, _, _) => InsertSimulates(lt, s, events[i], Committed(events), t);
    case Complete(_, _) => CompleteSimulates(lt, s, events[i], Committed(events), t);
    case Release(_, _, _) => ReleaseSimulates(lt, s, events[i], Committed(events), t);
  }

  /** Rows a claim has locked are, until it ends, present and as they were, and no other claim's. */
  lemma LockedRowsStay(lt: Collation, events: seq<Event>, n: nat, tx: Tx, id: Id)
    requires Runs(lt, events) && n <= |events|
    requires tx in Exec(lt, events[..n]).pending && id in Exec(lt, events[..n]).pending[tx].taken
    ensures var s := Exec(lt, events[..n]);
            && id in s.table && s.table[id] == s.pending[tx].taken[id]
            && Eligible(s.table[id], s.pending[tx].request.now)
            && forall tx' | tx' in s.pending && tx' != tx :: id !in s.pending[tx'].taken
  {
    InvHolds(lt, events, n);
    var s := Exec(lt, events[..n]);
    assert Selected(s.pending[tx]);
    forall tx' | tx' in s.pending && tx' != tx ensures id !in s.pending[tx'].taken {
      assert s.pending[tx].taken.Keys !! s.pending[tx'].taken.Keys;
    }
  }
}

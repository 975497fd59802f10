/** Claim seen from inside: a transaction locks its candidates, skipping rows locked by others, updates
    private copies of them and commits, while other transactions run. Every such run is equivalent to one
    of atomic statements in which each committed claim happens at the moment it took its locks.

    Taking the locks is one step here, at which some rows may be passed over for other reasons than being locked
    then; `OutboxScan` takes them one by one. A receipt is fixed when the locks are taken and nobody can
    present it before the claim that generates it has committed. */
module OutboxLocks {
  import opened Sql
  import opened OutboxStore
  import opened OutboxLog

  type Tx = nat

  datatype Request = Request(owner: string, now: Time, lease: Time, limit: nat, uuid: Id -> string)

  /** A claim in progress: what was asked, the candidates in order, the locked rows as they were when
      locked and, once the UPDATE has run, their uncommitted new versions. */
  datatype Pending = Pending(request: Request, candidates: seq<Position>, taken: Table, versions: Option<Table>)

  /** `table` is the committed table; `issued` holds every receipt generated so far. */
  datatype Split = Split(table: Table, pending: map<Tx, Pending>, ended: set<Tx>, issued: set<string>)

  datatype Event =
    | Lock(tx: Tx, request: Request, passed: set<Id>)
    | Update(tx: Tx)
    | Commit(tx: Tx)
    | Abort(tx: Tx)
    | Other(statement: Statement)

  const EMPTY: Split := Split(map[], map[], {}, {})

  function Locked(s: Split): set<Id> {
    set tx, id | tx in s.pending && id in s.pending[tx].taken :: id
  }

  /** The claim as an atomic statement that skips the rows locked at this moment and those it passed over. */
  function Atomically(s: Split, r: Request, passed: set<Id>): Statement {
    Claim(r.owner, r.now, r.lease, r.limit, Locked(s) + passed, r.uuid)
  }

  ghost function Chosen(lt: Collation, s: Split, r: Request, passed: set<Id>): seq<Position> {
    Candidates(lt, s.table, r.now, Locked(s) + passed, r.limit)
  }

  /** What the claim would write into the rows it locks meets the CHECK constraints. */
  ghost predicate Writable(lt: Collation, s: Split, r: Request, passed: set<Id>) {
    Stampable(Ids(Chosen(lt, s, r, passed)), r.owner, r.uuid)
  }

  function Rows(t: Table, ids: set<Id>): Table {
    map id | id in ids && id in t :: t[id]
  }

  /** What the UPDATE writes for a row it finds as `m`. */
  function Written(r: Request, id: Id, m: Message): Message {
    if m.attempt < MAX_BIGINT then ClaimedRow(m, r.owner, r.lease, r.uuid(id)) else m
  }

  /** The UPDATE: it joins the committed rows with the locked ones. */
  function NewVersions(t: Table, r: Request, ids: set<Id>): Table {
    map id | id in ids && id in t :: Written(r, id, t[id])
  }

  /** Whether a client can know this receipt: no claim still in progress is going to return it. */
  ghost predicate Presentable(s: Split, receipt: string) {
    forall tx, id | tx in s.pending && id in s.pending[tx].taken :: s.pending[tx].request.uuid(id) != receipt
  }

  /** The UPDATE is stopped by a CHECK constraint if what it writes does not fit; then only a rollback follows. */
  predicate Fitting(p: Pending) {
    Stampable(p.taken.Keys, p.request.owner, p.request.uuid)
  }

  /** When an event can happen. A Complete or Release of a locked row waits for the lock. */
  ghost predicate Enabled(lt: Collation, s: Split, e: Event) {
    match e
    case Lock(tx, r, passed) =>
      tx !in s.pending && tx !in s.ended && FreshReceipts(lt, s.table, s.issued, Atomically(s, r, passed))
    case Update(tx) => tx in s.pending && s.pending[tx].versions.None? && Fitting(s.pending[tx])
    case Commit(tx) => tx in s.pending && s.pending[tx].versions.Some?
    case Abort(tx) => tx in s.pending
    case Other(statement) =>
      match statement
      case Insert(_, _, _) => true
      case Claim(_, _, _, _, _, _) => false
      case Complete(owner, receipt) => Matching(s.table, owner, receipt) !! Locked(s) && Presentable(s, receipt)
      case Release(owner, receipt, _) => Matching(s.table, owner, receipt) !! Locked(s) && Presentable(s, receipt)
  }

  ghost function Next(lt: Collation, s: Split, e: Event): Split
    requires Enabled(lt, s, e)
  {
    match e
    case Lock(tx, r, passed) =>
      var c := Chosen(lt, s, r, passed);
      s.(pending := s.pending[tx := Pending(r, c, Rows(s.table, Ids(c)), None)],
         issued := s.issued + Generated(lt, s.table, Atomically(s, r, passed)))
    case Update(tx) =>
      var p := s.pending[tx];
      s.(pending := s.pending[tx := p.(versions := Some(NewVersions(s.table, p.request, p.taken.Keys)))])
    case Commit(tx) =>
      s.(table := s.table + s.pending[tx].versions.value, pending := s.pending - {tx}, ended := s.ended + {tx})
    case Abort(tx) => s.(pending := s.pending - {tx}, ended := s.ended + {tx})
    case Other(statement) => s.(table := Execute(lt, s.table, statement).0)
  }

  // ----- locked rows stay as they were

  /** A claim's own rows are the candidates it selected, all of them eligible. */
  predicate Selected(p: Pending) {
    && (forall c | c in p.candidates :: c.id in p.taken && p.taken[c.id].occurredAt == c.occurredAt)
    && (forall id | id in p.taken :: Eligible(p.taken[id], p.request.now))
  }

  predicate Prepared(p: Pending) {
    p.versions.Some? ==> p.versions.value == NewVersions(p.taken, p.request, p.taken.Keys) && Fitting(p)
  }

  ghost predicate AllPrepared(s: Split) {
    forall tx | tx in s.pending :: Prepared(s.pending[tx])
  }

  ghost predicate AllSelected(s: Split) {
    forall tx | tx in s.pending :: Selected(s.pending[tx])
  }

  ghost predicate RowsUntouched(s: Split) {
    forall tx, id | tx in s.pending && id in s.pending[tx].taken ::
      id in s.table && s.table[id] == s.pending[tx].taken[id]
  }

  ghost predicate RowsDisjoint(s: Split) {
    forall tx, tx' | tx in s.pending && tx' in s.pending && tx != tx' ::
      s.pending[tx].taken.Keys !! s.pending[tx'].taken.Keys
  }

  /** Until it commits or aborts, a claim's rows are present and unchanged since it locked them, and no
      other claim's: concurrent claims never share a row. */
  ghost predicate Inv(s: Split) {
    AllSelected(s) && AllPrepared(s) && RowsUntouched(s) && RowsDisjoint(s)
  }

  lemma ChosenWait(lt: Collation, s: Split, r: Request, passed: set<Id>)
    ensures forall c | c in Chosen(lt, s, r, passed) ::
              c.id in s.table && c.id !in Locked(s) && c.occurredAt == s.table[c.id].occurredAt
              && Eligible(s.table[c.id], r.now)
    ensures Ids(Chosen(lt, s, r, passed)) <= s.table.Keys
  {
    assert forall c | c in Chosen(lt, s, r, passed) :: c in Waiting(s.table, r.now, Locked(s) + passed);
  }

  lemma SelectedKept(lt: Collation, s: Split, e: Event)
    requires AllSelected(s) && Enabled(lt, s, e)
    ensures AllSelected(Next(lt, s, e))
  {
    var s' := Next(lt, s, e);
    if e.Lock? {
      ChosenWait(lt, s, e.request, e.passed);
      var p := s'.pending[e.tx];
      assert forall c | c in p.candidates :: c.id in Ids(p.candidates);
      forall id | id in p.taken ensures Eligible(p.taken[id], p.request.now) {
        var c :| c in p.candidates && c.id == id;
      }
    }
    forall tx | tx in s'.pending ensures Selected(s'.pending[tx]) {
      assert tx in s.pending ==> Selected(s.pending[tx]);
    }
  }

  lemma PreparedKept(lt: Collation, s: Split, e: Event)
    requires AllPrepared(s) && RowsUntouched(s) && Enabled(lt, s, e)
    ensures AllPrepared(Next(lt, s, e))
  {
    var s' := Next(lt, s, e);
    forall tx | tx in s'.pending ensures Prepared(s'.pending[tx]) {
      assert tx in s.pending ==> Prepared(s.pending[tx]);
      if e.Update? && tx == e.tx {
        var p := s.pending[tx];
        assert NewVersions(s.table, p.request, p.taken.Keys) == NewVersions(p.taken, p.request, p.taken.Keys);
      }
    }
  }

  /** Only taking locks adds to what a claim holds. */
  lemma TakenStays(lt: Collation, s: Split, e: Event)
    requires Enabled(lt, s, e)
    ensures forall tx | tx in Next(lt, s, e).pending && !(e.Lock? && tx == e.tx) ::
              tx in s.pending && Next(lt, s, e).pending[tx].taken == s.pending[tx].taken
    ensures e.Lock? ==> Next(lt, s, e).pending[e.tx].taken
                        == Rows(s.table, Ids(Chosen(lt, s, e.request, e.passed)))
  {
  }

  lemma DisjointKept(lt: Collation, s: Split, e: Event)
    requires RowsDisjoint(s) && Enabled(lt, s, e)
    ensures RowsDisjoint(Next(lt, s, e))
  {
    TakenStays(lt, s, e);
    if e.Lock? {
      ChosenWait(lt, s, e.request, e.passed);
      forall tx, id | tx in s.pending && id in s.pending[tx].taken ensures id in Locked(s) {}
    }
  }

  /** Statements of other clients leave locked rows alone. */
  lemma OthersSpareLocked(lt: Collation, s: Split, e: Event, id: Id)
    requires Enabled(lt, s, e) && e.Other? && id in Locked(s) && id in s.table
    ensures id in Next(lt, s, e).table && Next(lt, s, e).table[id] == s.table[id]
  {
  }

  lemma LockedRowStays(lt: Collation, s: Split, e: Event, tx: Tx, id: Id)
    requires AllPrepared(s) && RowsUntouched(s) && RowsDisjoint(s) && Enabled(lt, s, e)
    requires tx in s.pending && tx in Next(lt, s, e).pending && id in s.pending[tx].taken
    ensures id in s.table && id in Next(lt, s, e).table && Next(lt, s, e).table[id] == s.table[id]
  {
    assert id in Locked(s);
    if e.Other? {
      OthersSpareLocked(lt, s, e, id);
    } else if e.Commit? {
      CommitWrites(lt, s, e);
      assert s.pending[tx].taken.Keys !! s.pending[e.tx].taken.Keys;
    }
  }

  lemma UntouchedKept(lt: Collation, s: Split, e: Event)
    requires AllPrepared(s) && RowsUntouched(s) && RowsDisjoint(s) && Enabled(lt, s, e)
    ensures RowsUntouched(Next(lt, s, e))
  {
    var s' := Next(lt, s, e);
    TakenStays(lt, s, e);
    forall tx, id | tx in s'.pending && id in s'.pending[tx].taken
      ensures id in s'.table && s'.table[id] == s'.pending[tx].taken[id]
    {
      if !(e.Lock? && tx == e.tx) {
        LockedRowStays(lt, s, e, tx, id);
      }
    }
  }

  lemma StepKeepsInv(lt: Collation, s: Split, e: Event)
    requires Inv(s) && Enabled(lt, s, e)
    ensures Inv(Next(lt, s, e))
  {
    SelectedKept(lt, s, e);
    PreparedKept(lt, s, e);
    DisjointKept(lt, s, e);
    UntouchedKept(lt, s, e);
  }

  // ----- the simulation

  /** Whether the row is locked by a transaction that is going to commit. */
  ghost predicate Won(s: Split, winners: set<Tx>, id: Id) {
    exists tx :: tx in s.pending && tx in winners && id in s.pending[tx].taken
  }

  ghost predicate WinnersWritten(s: Split, winners: set<Tx>, t: Table) {
    forall tx, id | tx in s.pending && tx in winners && id in s.pending[tx].taken ::
      id in t && t[id] == Written(s.pending[tx].request, id, s.pending[tx].taken[id])
  }

  ghost predicate OthersPlain(s: Split, winners: set<Tx>, t: Table) {
    t.Keys == s.table.Keys && forall id | id in t && !Won(s, winners, id) :: t[id] == s.table[id]
  }

  /** `t` is the committed table with the claims that are going to commit already in it. */
  ghost predicate Overlays(s: Split, winners: set<Tx>, t: Table) {
    WinnersWritten(s, winners, t) && OthersPlain(s, winners, t)
  }

  /** The atomic statements an event stands for. */
  ghost function Atomic(s: Split, e: Event, winners: set<Tx>): seq<Statement> {
    match e
    case Lock(tx, r, passed) => if tx in winners then [Atomically(s, r, passed)] else []
    case Other(statement) => [statement]
    case _ => []
  }

  /** Rows nobody has locked look the same in both tables. */
  lemma UnlockedAgree(s: Split, winners: set<Tx>, t: Table)
    requires OthersPlain(s, winners, t)
    ensures forall id | id in t && id !in Locked(s) :: t[id] == s.table[id]
  {
    forall id | id in t && id !in Locked(s) ensures !Won(s, winners, id) {}
  }

  lemma SameSelection(lt: Collation, s: Split, winners: set<Tx>, t: Table, r: Request, passed: set<Id>)
    requires Overlays(s, winners, t)
    ensures Candidates(lt, t, r.now, Locked(s) + passed, r.limit) == Chosen(lt, s, r, passed)
  {
    UnlockedAgree(s, winners, t);
    assert Waiting(t, r.now, Locked(s) + passed) == Waiting(s.table, r.now, Locked(s) + passed);
  }

  /** What an atomic claim does to the overlaid table. */
  lemma AtomicClaimWrites(lt: Collation, s: Split, winners: set<Tx>, t: Table, r: Request, passed: set<Id>)
    requires Overlays(s, winners, t) && Writable(lt, s, r, passed)
    ensures var t' := Execute(lt, t, Atomically(s, r, passed)).0;
            var ids := Ids(Chosen(lt, s, r, passed));
            && t'.Keys == t.Keys && ids <= t.Keys
            && (forall id | id in t :: t'[id] == if id in ids then Written(r, id, s.table[id]) else t[id])
  {
    ChosenWait(lt, s, r, passed);
    SameSelection(lt, s, winners, t, r, passed);
    UnlockedAgree(s, winners, t);
  }

  /** A row is won after a step if it was before and its holder is still at work. */
  lemma StillWon(lt: Collation, s: Split, e: Event, winners: set<Tx>, id: Id)
    requires Enabled(lt, s, e) && Won(s, winners, id)
    requires e.Commit? || e.Abort? ==> e.tx in winners ==> id !in s.pending[e.tx].taken
    ensures Won(Next(lt, s, e), winners, id)
  {
    var tx :| tx in s.pending && tx in winners && id in s.pending[tx].taken;
    assert tx in Next(lt, s, e).pending && Next(lt, s, e).pending[tx].taken == s.pending[tx].taken;
  }

  lemma LockWrites(lt: Collation, s: Split, e: Event, winners: set<Tx>, t: Table)
    requires Enabled(lt, s, e) && e.Lock? && e.tx in winners && Overlays(s, winners, t)
    requires Writable(lt, s, e.request, e.passed)
    ensures WinnersWritten(Next(lt, s, e), winners, Execute(lt, t, Atomically(s, e.request, e.passed)).0)
  {
    var s', t' := Next(lt, s, e), Execute(lt, t, Atomically(s, e.request, e.passed)).0;
    ChosenWait(lt, s, e.request, e.passed);
    AtomicClaimWrites(lt, s, winners, t, e.request, e.passed);
    forall tx, id | tx in s'.pending && tx in winners && id in s'.pending[tx].taken
      ensures id in t' && t'[id] == Written(s'.pending[tx].request, id, s'.pending[tx].taken[id])
    {
      if tx != e.tx {
        assert id in Locked(s);
        assert s'.pending[tx] == s.pending[tx];
      } else {
        var c := Chosen(lt, s, e.request, e.passed);
        assert s'.pending[tx] == Pending(e.request, c, Rows(s.table, Ids(c)), None);
      }
    }
  }

  /** The lock of a claim that will commit is the atomic claim. */
  lemma WinningLockSimulates(lt: Collation, s: Split, e: Event, winners: set<Tx>, t: Table)
    requires Enabled(lt, s, e) && e.Lock? && e.tx in winners && Overlays(s, winners, t)
    requires Writable(lt, s, e.request, e.passed)
    ensures Overlays(Next(lt, s, e), winners, Execute(lt, t, Atomically(s, e.request, e.passed)).0)
  {
    var s', t' := Next(lt, s, e), Execute(lt, t, Atomically(s, e.request, e.passed)).0;
    LockWrites(lt, s, e, winners, t);
    AtomicClaimWrites(lt, s, winners, t, e.request, e.passed);
    forall id | id in t' && !Won(s', winners, id) ensures t'[id] == s'.table[id] {
      if Won(s, winners, id) {
        StillWon(lt, s, e, winners, id);
      }
      assert e.tx in s'.pending && id !in s'.pending[e.tx].taken;
    }
  }

  /** The lock of a claim that will be rolled back has no atomic counterpart. */
  lemma LosingLockSimulates(lt: Collation, s: Split, e: Event, winners: set<Tx>, t: Table)
    requires Enabled(lt, s, e) && e.Lock? && e.tx !in winners && Overlays(s, winners, t)
    ensures Overlays(Next(lt, s, e), winners, t)
  {
    LosingLockAdds(lt, s, e);
    SameWinners(s, Next(lt, s, e), e.tx, winners, t);
  }

  lemma LosingLockAdds(lt: Collation, s: Split, e: Event)
    requires Enabled(lt, s, e) && e.Lock?
    ensures e.tx !in s.pending && e.tx in Next(lt, s, e).pending && Next(lt, s, e).table == s.table
    ensures Next(lt, s, e).pending == s.pending[e.tx := Next(lt, s, e).pending[e.tx]]
  {
  }

  lemma SameWinners(s: Split, s': Split, tx: Tx, winners: set<Tx>, t: Table)
    requires tx !in winners && tx !in s.pending && tx in s'.pending && s'.table == s.table
    requires s'.pending == s.pending[tx := s'.pending[tx]] && Overlays(s, winners, t)
    ensures Overlays(s', winners, t)
  {
    forall id | Won(s, winners, id) ensures Won(s', winners, id) {
      var other :| other in s.pending && other in winners && id in s.pending[other].taken;
      assert other in s'.pending;
    }
  }

  lemma UpdateSimulates(lt: Collation, s: Split, e: Event, winners: set<Tx>, t: Table)
    requires Enabled(lt, s, e) && e.Update? && Overlays(s, winners, t)
    ensures Overlays(Next(lt, s, e), winners, t)
  {
    forall id | Won(s, winners, id) ensures Won(Next(lt, s, e), winners, id) {
      StillWon(lt, s, e, winners, id);
    }
  }

  /** What a commit publishes: the written versions of the rows the claim had locked. */
  lemma CommitWrites(lt: Collation, s: Split, e: Event)
    requires AllPrepared(s) && RowsUntouched(s) && Enabled(lt, s, e) && e.Commit?
    ensures var t', p := Next(lt, s, e).table, s.pending[e.tx];
            && t'.Keys == s.table.Keys
            && (forall id | id in s.table ::
                  t'[id] == if id in p.taken then Written(p.request, id, p.taken[id]) else s.table[id])
  {
    assert Prepared(s.pending[e.tx]);
    assert forall id | id in s.pending[e.tx].taken :: id in s.table;
  }

  lemma CommitSimulates(lt: Collation, s: Split, e: Event, winners: set<Tx>, t: Table)
    requires AllPrepared(s) && RowsUntouched(s)
    requires Enabled(lt, s, e) && e.Commit? && e.tx in winners && Overlays(s, winners, t)
    ensures Overlays(Next(lt, s, e), winners, t)
  {
    var s', p := Next(lt, s, e), s.pending[e.tx];
    CommitWrites(lt, s, e);
    forall id | id in t && !Won(s', winners, id) ensures t[id] == s'.table[id] {
      if id !in p.taken && Won(s, winners, id) {
        StillWon(lt, s, e, winners, id);
      }
    }
  }

  lemma AbortSimulates(lt: Collation, s: Split, e: Event, winners: set<Tx>, t: Table)
    requires Enabled(lt, s, e) && e.Abort? && e.tx !in winners && Overlays(s, winners, t)
    ensures Overlays(Next(lt, s, e), winners, t)
  {
    forall id | Won(s, winners, id) ensures Won(Next(lt, s, e), winners, id) {
      StillWon(lt, s, e, winners, id);
    }
  }

  /** The rows a Complete or Release selects are the same in both tables. */
  lemma SameMatching(s: Split, winners: set<Tx>, t: Table, owner: string, receipt: string)
    requires AllSelected(s) && Overlays(s, winners, t)
    requires Matching(s.table, owner, receipt) !! Locked(s) && Presentable(s, receipt)
    ensures Matching(t, owner, receipt) == Matching(s.table, owner, receipt)
    ensures forall id | id in Matching(t, owner, receipt) :: id !in Locked(s)
  {
    forall id | id in t ensures Held(t[id], owner, receipt) <==> Held(s.table[id], owner, receipt) {
      if Won(s, winners, id) {
        var tx :| tx in s.pending && tx in winners && id in s.pending[tx].taken;
        assert id in Locked(s);
        assert id !in Matching(s.table, owner, receipt);
        assert Selected(s.pending[tx]);
      }
    }
  }

  /** A change of both tables that spares the locked rows and is the same on all others. */
  lemma SameChange(s: Split, s': Split, winners: set<Tx>, t: Table, t': Table)
    requires Overlays(s, winners, t) && s'.pending == s.pending && t'.Keys == s'.table.Keys
    requires forall id | id in Locked(s) ::
               id in t && id in s.table && id in t' && id in s'.table && t'[id] == t[id] && s'.table[id] == s.table[id]
    requires forall id | id in t' && id !in Locked(s) :: t'[id] == s'.table[id]
    ensures Overlays(s', winners, t')
  {
    forall tx, id | tx in s.pending && id in s.pending[tx].taken ensures id in Locked(s) {}
    forall id | Won(s, winners, id) ensures Won(s', winners, id) {
      var tx :| tx in s.pending && tx in winners && id in s.pending[tx].taken;
      assert tx in s'.pending;
    }
  }

  lemma LockedPresent(s: Split)
    requires RowsUntouched(s)
    ensures forall id | id in Locked(s) :: id in s.table
  {
  }

  lemma CompleteSimulates(lt: Collation, s: Split, e: Event, winners: set<Tx>, t: Table)
    requires AllSelected(s) && RowsUntouched(s)
    requires Enabled(lt, s, e) && e.Other? && e.statement.Complete? && Overlays(s, winners, t)
    ensures Overlays(Next(lt, s, e), winners, Execute(lt, t, e.statement).0)
    ensures Execute(lt, t, e.statement).1 == Execute(lt, s.table, e.statement).1
  {
    LockedPresent(s);
    SameMatching(s, winners, t, e.statement.owner, e.statement.receipt);
    UnlockedAgree(s, winners, t);
    SameChange(s, Next(lt, s, e), winners, t, Execute(lt, t, e.statement).0);
  }

  lemma ReleaseSimulates(lt: Collation, s: Split, e: Event, winners: set<Tx>, t: Table)
    requires AllSelected(s) && RowsUntouched(s)
    requires Enabled(lt, s, e) && e.Other? && e.statement.Release? && Overlays(s, winners, t)
    ensures Overlays(Next(lt, s, e), winners, Execute(lt, t, e.statement).0)
    ensures Execute(lt, t, e.statement).1 == Execute(lt, s.table, e.statement).1
  {
    var owner, receipt := e.statement.owner, e.statement.receipt;
    LockedPresent(s);
    SameMatching(s, winners, t, owner, receipt);
    UnlockedAgree(s, winners, t);
    assert forall id | id in t :: Held(t[id], owner, receipt) <==> id in Matching(t, owner, receipt);
    assert forall id | id in s.table :: Held(s.table[id], owner, receipt) <==> id in Matching(s.table, owner, receipt);
    SameChange(s, Next(lt, s, e), winners, t, Execute(lt, t, e.statement).0);
  }

  lemma InsertSimulates(lt: Collation, s: Split, e: Event, winners: set<Tx>, t: Table)
    requires RowsUntouched(s)
    requires Enabled(lt, s, e) && e.Other? && e.statement.Insert? && Overlays(s, winners, t)
    ensures Overlays(Next(lt, s, e), winners, Execute(lt, t, e.statement).0)
    ensures Execute(lt, t, e.statement).1 == Execute(lt, s.table, e.statement).1
  {
    LockedPresent(s);
    UnlockedAgree(s, winners, t);
    SameChange(s, Next(lt, s, e), winners, t, Execute(lt, t, e.statement).0);
  }

  /** The winners commit, so their UPDATE is not stopped, and nobody else does. */
  ghost predicate Respects(lt: Collation, s: Split, e: Event, winners: set<Tx>) {
    && (e.Commit? ==> e.tx in winners) && (e.Abort? ==> e.tx !in winners)
    && (e.Lock? && e.tx in winners ==> Writable(lt, s, e.request, e.passed))
  }

  /** One event of a split run corresponds to at most one atomic statement on the overlaid table. */
  lemma StepSimulates(lt: Collation, s: Split, e: Event, winners: set<Tx>, t: Table)
    requires Inv(s) && Enabled(lt, s, e) && Respects(lt, s, e, winners) && Overlays(s, winners, t)
    ensures Overlays(Next(lt, s, e), winners,
                     if Atomic(s, e, winners) == [] then t else Execute(lt, t, Atomic(s, e, winners)[0]).0)
  {
    match e
    case Lock(tx, _, _) =>
      if tx in winners {
        WinningLockSimulates(lt, s, e, winners, t);
      } else {
        LosingLockSimulates(lt, s, e, winners, t);
      }
    case Update(_) => UpdateSimulates(lt, s, e, winners, t);
    case Commit(_) => CommitSimulates(lt, s, e, winners, t);
    case Abort(_) => AbortSimulates(lt, s, e, winners, t);
    case Other(statement) =>
      match statement
      case Insert(_, _, _) => InsertSimulates(lt, s, e, winners, t);
      case Complete(_, _) => CompleteSimulates(lt, s, e, winners, t);
      case Release(_, _, _) => ReleaseSimulates(lt, s, e, winners, t);
  }

  // ----- who waits

  /** While no claim is in progress, nothing waits. */
  lemma NobodyWaits(lt: Collation, s: Split, statement: Statement)
    requires s.pending == map[] && !statement.Claim?
    ensures Enabled(lt, s, Other(statement))
  {
  }

  /** Receipts as `gen_random_uuid` returns them, new and each its own, and text that fits. */
  ghost predicate Unused(s: Split, r: Request) {
    && (forall id :: r.uuid(id) !in s.issued)
    && (forall id, id' | id != id' :: r.uuid(id) != r.uuid(id'))
    && Fits(r.owner, MAX_TEXT) && forall id :: Fits(r.uuid(id), MAX_TEXT)
  }

  /** The event can happen in `s` and leads to `s'`. */
  ghost predicate Leads(lt: Collation, s: Split, e: Event, s': Split) {
    Enabled(lt, s, e) && s' == Next(lt, s, e)
  }

  lemma LockByItself(lt: Collation, s: Split, tx: Tx, r: Request) returns (locked: Split, p: Pending)
    requires tx !in s.pending && tx !in s.ended && Unused(s, r)
    ensures Leads(lt, s, Lock(tx, r, {}), locked)
    ensures p.request == r && p.taken.Keys == Ids(Chosen(lt, s, r, {})) && p.versions.None? && Fitting(p)
    ensures locked.pending == s.pending[tx := p] && locked.table == s.table && locked.ended == s.ended
  {
    ChosenWait(lt, s, r, {});
    locked := Next(lt, s, Lock(tx, r, {}));
    p := locked.pending[tx];
  }

  lemma UpdateAndCommit(lt: Collation, before: Split, s: Split, tx: Tx, p: Pending)
    returns (updated: Split, s': Split)
    requires p.versions.None? && Fitting(p)
    requires tx !in before.pending && s.pending == before.pending[tx := p]
    ensures Leads(lt, s, Update(tx), updated) && Leads(lt, updated, Commit(tx), s')
    ensures s'.table == s.table + NewVersions(s.table, p.request, p.taken.Keys)
    ensures s'.pending == before.pending && s'.ended == s.ended + {tx}
  {
    updated := Next(lt, s, Update(tx));
    s' := Next(lt, updated, Commit(tx));
    assert s'.pending == before.pending;
  }

  lemma WritesAtomically(lt: Collation, s: Split, r: Request)
    requires Unused(s, r)
    ensures s.table + NewVersions(s.table, r, Ids(Chosen(lt, s, r, {})))
            == Execute(lt, s.table, Claim(r.owner, r.now, r.lease, r.limit, Locked(s), r.uuid)).0
  {
    assert Locked(s) + {} == Locked(s);
    ChosenWait(lt, s, r, {});
    var c := Chosen(lt, s, r, {});
    forall id | id in Ids(c) ensures Eligible(s.table[id], r.now) {
      var p :| p in c && p.id == id;
    }
    assert s.table + NewVersions(s.table, r, Ids(c)) == ClaimAll(s.table, Ids(c), r.owner, r.lease, r.uuid);
  }

  /** Whatever others have locked, a new claim can lock, update and commit without waiting, and it leaves what
      the atomic claim leaves that skips their rows. */
  lemma ClaimByItself(lt: Collation, s: Split, tx: Tx, r: Request)
    returns (locked: Split, updated: Split, s': Split)
    requires tx !in s.pending && tx !in s.ended && Unused(s, r)
    ensures Leads(lt, s, Lock(tx, r, {}), locked) && Leads(lt, locked, Update(tx), updated)
    ensures Leads(lt, updated, Commit(tx), s')
    ensures s'.table == Execute(lt, s.table, Claim(r.owner, r.now, r.lease, r.limit, Locked(s), r.uuid)).0
    ensures s'.pending == s.pending && s'.ended == s.ended + {tx}
  {
    var p;
    locked, p := LockByItself(lt, s, tx, r);
    updated, s' := UpdateAndCommit(lt, s, locked, tx, p);
    WritesAtomically(lt, s, r);
  }
}

/** Claim row by row: the candidates are those of the statement's snapshot, and each is locked when its turn
    comes, if nobody else has locked it and a second look still finds it claimable; meanwhile other
    transactions go on. Every such run is a run of claims that take their locks at once, when the last row
    is locked; and exactly when nothing claimable was overtaken, the claim is the one that looked at the
    table at that moment. */
module OutboxScan {
  import opened Sql
  import opened Ordering
  import opened OutboxStore
  import opened OutboxLog
  import opened OutboxClaim
  import opened OutboxLocks
  import OutboxSerial

  /** A claim that is still locking: the snapshot's candidates not yet visited, the rows locked so far, in
      order and as they were when locked, and the ids whose rows were deleted since the snapshot. */
  datatype Scan = Scan(request: Request, todo: seq<Position>, got: seq<Position>, rows: Table, gone: set<Id>)

  datatype World = World(split: Split, scans: map<Tx, Scan>)

  datatype Move =
    | Start(tx: Tx, request: Request)
    | Visit(tx: Tx)
    | Finish(tx: Tx)
    | Quit(tx: Tx)
    | Inner(event: Event)

  /** The rows that scans other than `tx` have locked. */
  function ScanLocked(w: World, tx: Tx): set<Id> {
    set other, id | other in w.scans && other != tx && id in w.scans[other].rows :: id
  }

  /** The rows others have locked. */
  function LockedByOthers(w: World, tx: Tx): set<Id> {
    Locked(w.split) + ScanLocked(w, tx)
  }

  /** FOR UPDATE SKIP LOCKED on one candidate of the snapshot: the row is still that one, nobody else has
      locked it, and it still meets the WHERE clause. */
  predicate Lockable(w: World, tx: Tx, p: Position)
    requires tx in w.scans
  {
    && p.id !in LockedByOthers(w, tx) && p.id !in w.scans[tx].gone
    && p.id in w.split.table && w.split.table[p.id].occurredAt == p.occurredAt
    && Eligible(w.split.table[p.id], w.scans[tx].request.now)
  }

  /** Everything claimable now that nobody holds and the scan has not taken. */
  function PassedOver(w: World, tx: Tx): set<Id>
    requires tx in w.scans
  {
    set id | id in w.split.table && Eligible(w.split.table[id], w.scans[tx].request.now)
             && id !in w.scans[tx].rows && id !in Locked(w.split)
  }

  function LockOf(w: World, tx: Tx): Event
    requires tx in w.scans
  {
    Lock(tx, w.scans[tx].request, PassedOver(w, tx))
  }

  ghost predicate Possible(lt: Collation, w: World, m: Move) {
    match m
    case Start(tx, _) => tx !in w.scans && tx !in w.split.pending && tx !in w.split.ended
    case Visit(tx) => tx in w.scans && w.scans[tx].todo != [] && |w.scans[tx].got| < w.scans[tx].request.limit
    case Finish(tx) =>
      && tx in w.scans && (w.scans[tx].todo == [] || |w.scans[tx].got| == w.scans[tx].request.limit)
      && Enabled(lt, w.split, LockOf(w, tx))
    case Quit(tx) => tx in w.scans
    case Inner(e) =>
      && !e.Lock? && Enabled(lt, w.split, e)
      && (forall tx | tx in w.scans :: Spared(w, w.scans[tx], e))
  }

  /** A Complete or Release of a row the scan has locked waits for the lock. */
  predicate Spared(w: World, s: Scan, e: Event) {
    e.Other? && (e.statement.Complete? || e.statement.Release?) ==>
      Matching(w.split.table, e.statement.owner, e.statement.receipt) !! s.rows.Keys
  }

  /** Deletions since the snapshot. */
  function Noted(w: World, s: Scan, e: Event): Scan {
    if e.Other? && e.statement.Complete?
    then s.(gone := s.gone + Matching(w.split.table, e.statement.owner, e.statement.receipt))
    else s
  }

  function Visited(w: World, tx: Tx): Scan
    requires tx in w.scans && w.scans[tx].todo != []
  {
    var s, p := w.scans[tx], w.scans[tx].todo[0];
    if Lockable(w, tx, p)
    then s.(todo := s.todo[1..], got := s.got + [p], rows := s.rows[p.id := w.split.table[p.id]])
    else s.(todo := s.todo[1..])
  }

  ghost function After(lt: Collation, w: World, m: Move): World
    requires Possible(lt, w, m)
  {
    match m
    case Start(tx, r) => w.(scans := w.scans[tx := Scan(r, Queue(lt, w.split.table, r.now, {}), [], map[], {})])
    case Visit(tx) => w.(scans := w.scans[tx := Visited(w, tx)])
    case Finish(tx) => World(Next(lt, w.split, LockOf(w, tx)), w.scans - {tx})
    case Quit(tx) => w.(scans := w.scans - {tx})
    case Inner(e) => World(Next(lt, w.split, e), map tx | tx in w.scans :: Noted(w, w.scans[tx], e))
  }

  // ----- what a scan holds stays as it was

  predicate Holds(s: Scan, table: Table) {
    && (forall id | id in s.rows :: id in table && table[id] == s.rows[id] && Eligible(s.rows[id], s.request.now))
    && (forall c | c in s.got :: c.id in s.rows && s.rows[c.id].occurredAt == c.occurredAt)
    && (forall id | id in s.rows :: Position(s.rows[id].occurredAt, id) in s.got)
  }

  ghost predicate InOrder(lt: Collation, s: Scan) {
    Ascending(Earlier(lt), s.got + s.todo) && |s.got| <= s.request.limit
  }

  ghost predicate ScansHold(w: World) {
    forall tx | tx in w.scans :: Holds(w.scans[tx], w.split.table)
  }

  ghost predicate ScansInOrder(lt: Collation, w: World) {
    forall tx | tx in w.scans :: InOrder(lt, w.scans[tx])
  }

  ghost predicate ScansApart(w: World) {
    && (forall tx | tx in w.scans :: w.scans[tx].rows.Keys !! Locked(w.split))
    && (forall tx, tx' | tx in w.scans && tx' in w.scans && tx != tx' ::
          w.scans[tx].rows.Keys !! w.scans[tx'].rows.Keys)
  }

  /** Rows locked by a scan or a claim are present, unchanged and eligible, and nobody else's. */
  ghost predicate Sound(lt: Collation, w: World) {
    Inv(w.split) && ScansHold(w) && ScansInOrder(lt, w) && ScansApart(w)
  }

  lemma InOrderKept(lt: Collation, w: World, m: Move)
    requires ScansInOrder(lt, w) && Possible(lt, w, m)
    ensures ScansInOrder(lt, After(lt, w, m))
  {
    var w' := After(lt, w, m);
    forall tx | tx in w'.scans ensures InOrder(lt, w'.scans[tx]) {
      if m.Start? && tx == m.tx {
        var s := w'.scans[tx];
        assert s.got + s.todo == s.todo;
      } else {
        assert InOrder(lt, w.scans[tx]);
        if m.Visit? && tx == m.tx {
          VisitKeepsOrder(lt, w, tx);
        }
      }
    }
  }

  lemma VisitKeepsOrder(lt: Collation, w: World, tx: Tx)
    requires tx in w.scans && w.scans[tx].todo != [] && |w.scans[tx].got| < w.scans[tx].request.limit
    requires InOrder(lt, w.scans[tx])
    ensures InOrder(lt, Visited(w, tx))
  {
    var s := w.scans[tx];
    var n := |s.got|;
    assert s.got + [s.todo[0]] + s.todo[1..] == s.got + s.todo;
    var rest := s.got + s.todo[1..];
    assert forall i | 0 <= i < |rest| :: rest[i] == (s.got + s.todo)[if i < n then i else i + 1];
  }

  /** What an event of the claims at work, or of other clients, does to a row no claim at work has locked and
      no statement selects. */
  lemma SparedStays(lt: Collation, w: World, s: Scan, e: Event)
    requires Inv(w.split) && Enabled(lt, w.split, e) && !e.Lock? && Spared(w, s, e)
    requires Holds(s, w.split.table) && s.rows.Keys !! Locked(w.split)
    ensures Holds(s, Next(lt, w.split, e).table)
  {
    var t, t' := w.split.table, Next(lt, w.split, e).table;
    forall id | id in s.rows ensures id in t' && t'[id] == t[id] {
      assert id in t && id !in Locked(w.split);
      if e.Commit? {
        CommitWrites(lt, w.split, e);
        assert id in w.split.pending[e.tx].taken ==> id in Locked(w.split);
      } else if e.Other? && (e.statement.Complete? || e.statement.Release?) {
        assert id !in Matching(t, e.statement.owner, e.statement.receipt);
      }
    }
  }

  lemma VisitHolds(w: World, tx: Tx)
    requires tx in w.scans && w.scans[tx].todo != [] && Holds(w.scans[tx], w.split.table)
    ensures Holds(Visited(w, tx), w.split.table)
  {
    var s, s', p := w.scans[tx], Visited(w, tx), w.scans[tx].todo[0];
    if Lockable(w, tx, p) && p.id !in s.rows {
      assert p in s'.got;
      forall c | c in s'.got ensures c.id in s'.rows && s'.rows[c.id].occurredAt == c.occurredAt {
        assert c in s.got || c == p;
      }
    } else if Lockable(w, tx, p) {
      assert s'.rows == s.rows;
      forall c | c in s'.got ensures c.id in s'.rows && s'.rows[c.id].occurredAt == c.occurredAt {
        assert c in s.got || c == p;
      }
    }
  }

  lemma HoldsKept(lt: Collation, w: World, m: Move)
    requires Sound(lt, w) && Possible(lt, w, m)
    ensures ScansHold(After(lt, w, m))
  {
    var w' := After(lt, w, m);
    forall tx | tx in w'.scans ensures Holds(w'.scans[tx], w'.split.table) {
      if m.Start? && tx == m.tx {
      } else {
        var s := w.scans[tx];
        assert Holds(s, w.split.table);
        if m.Visit? && tx == m.tx {
          VisitHolds(w, tx);
        } else if m.Inner? {
          assert s.rows.Keys !! Locked(w.split) && Spared(w, s, m.event);
          SparedStays(lt, w, s, m.event);
        }
      }
    }
  }

  /** What is claimable, unlocked and not passed over is what the scan has taken. */
  lemma GotIsLeft(w: World, tx: Tx)
    requires tx in w.scans && Holds(w.scans[tx], w.split.table) && w.scans[tx].rows.Keys !! Locked(w.split)
    ensures Waiting(w.split.table, w.scans[tx].request.now, Locked(w.split) + PassedOver(w, tx))
            == Elements(w.scans[tx].got)
  {
    var s := w.scans[tx];
    var waiting := Waiting(w.split.table, s.request.now, Locked(w.split) + PassedOver(w, tx));
    forall p ensures p in waiting <==> p in s.got {
      if p in s.got {
        assert p.id in s.rows && w.split.table[p.id] == s.rows[p.id];
        assert p == Position(w.split.table[p.id].occurredAt, p.id);
      }
      if p in waiting {
        assert p.id in s.rows;
      }
    }
  }

  lemma GotNamesRows(s: Scan, table: Table)
    requires Holds(s, table)
    ensures Rows(table, Ids(s.got)) == s.rows
  {
    forall id | id in s.rows ensures id in Ids(s.got) {
      var c := Position(s.rows[id].occurredAt, id);
      assert c in s.got && c.id == id;
    }
  }

  /** A finished scan holds exactly the rows that the claim, taking its locks at once and passing over what
      the scan passed over, takes. */
  lemma FinishTakes(lt: Collation, w: World, tx: Tx)
    requires tx in w.scans && Holds(w.scans[tx], w.split.table) && InOrder(lt, w.scans[tx])
    requires w.scans[tx].rows.Keys !! Locked(w.split)
    ensures var s := w.scans[tx];
            && Chosen(lt, w.split, s.request, PassedOver(w, tx)) == s.got
            && Rows(w.split.table, Ids(s.got)) == s.rows
  {
    var s := w.scans[tx];
    GotIsLeft(w, tx);
    GotNamesRows(s, w.split.table);
    EarlierTotal(lt);
    assert Ascending(Earlier(lt), s.got) by {
      assert forall i | 0 <= i < |s.got| :: (s.got + s.todo)[i] == s.got[i];
    }
    ArrangementIs(Earlier(lt), s.got, Elements(s.got));
    assert s.got[..|s.got|] == s.got;
  }

  lemma LockedAfterFinish(lt: Collation, w: World, tx: Tx)
    requires Possible(lt, w, Finish(tx)) && Holds(w.scans[tx], w.split.table) && InOrder(lt, w.scans[tx])
    requires w.scans[tx].rows.Keys !! Locked(w.split)
    ensures Locked(After(lt, w, Finish(tx)).split) == Locked(w.split) + w.scans[tx].rows.Keys
  {
    FinishTakes(lt, w, tx);
    TakenStays(lt, w.split, LockOf(w, tx));
    LockedMore(w.split, After(lt, w, Finish(tx)).split, tx);
  }

  lemma LockedMore(s: Split, s': Split, tx: Tx)
    requires tx !in s.pending && s'.pending.Keys == s.pending.Keys + {tx}
    requires forall other | other in s.pending :: s'.pending[other].taken == s.pending[other].taken
    ensures Locked(s') == Locked(s) + s'.pending[tx].taken.Keys
  {
    forall id | id in Locked(s) ensures id in Locked(s') {
      var other :| other in s.pending && id in s.pending[other].taken;
      assert other in s'.pending;
    }
  }

  lemma InnerLocksNothing(lt: Collation, s: Split, e: Event)
    requires Enabled(lt, s, e) && !e.Lock?
    ensures Locked(Next(lt, s, e)) <= Locked(s)
  {
    TakenStays(lt, s, e);
  }

  lemma ApartKept(lt: Collation, w: World, m: Move)
    requires Sound(lt, w) && Possible(lt, w, m)
    ensures ScansApart(After(lt, w, m))
  {
    match m
    case Start(_, _) =>
    case Visit(tx) => VisitApart(w, tx);
    case Finish(tx) => FinishApart(lt, w, tx);
    case Quit(_) =>
    case Inner(e) => InnerApart(lt, w, e);
  }

  lemma FinishApart(lt: Collation, w: World, tx: Tx)
    requires ScansHold(w) && ScansInOrder(lt, w) && ScansApart(w) && Possible(lt, w, Finish(tx))
    ensures ScansApart(After(lt, w, Finish(tx)))
  {
    assert Holds(w.scans[tx], w.split.table) && InOrder(lt, w.scans[tx]);
    LockedAfterFinish(lt, w, tx);
    StillApart(w, tx, After(lt, w, Finish(tx)));
  }

  lemma StillApart(w: World, tx: Tx, w': World)
    requires ScansApart(w) && tx in w.scans && w'.scans == w.scans - {tx}
    requires Locked(w'.split) == Locked(w.split) + w.scans[tx].rows.Keys
    ensures ScansApart(w')
  {
  }

  lemma InnerApart(lt: Collation, w: World, e: Event)
    requires ScansApart(w) && Possible(lt, w, Inner(e))
    ensures ScansApart(After(lt, w, Inner(e)))
  {
    InnerLocksNothing(lt, w.split, e);
    assert forall tx | tx in w.scans :: After(lt, w, Inner(e)).scans[tx].rows == w.scans[tx].rows;
  }

  lemma VisitApart(w: World, tx: Tx)
    requires tx in w.scans && w.scans[tx].todo != [] && ScansApart(w)
    ensures ScansApart(w.(scans := w.scans[tx := Visited(w, tx)]))
  {
    var s := Visited(w, tx);
    assert s.rows.Keys <= w.scans[tx].rows.Keys + {w.scans[tx].todo[0].id};
    forall other, id | other in w.scans && other != tx && id in w.scans[other].rows ensures id in ScanLocked(w, tx) {
    }
  }

  lemma SoundKept(lt: Collation, w: World, m: Move)
    requires Sound(lt, w) && Possible(lt, w, m)
    ensures Sound(lt, After(lt, w, m))
  {
    InOrderKept(lt, w, m);
    HoldsKept(lt, w, m);
    ApartKept(lt, w, m);
    if m.Finish? {
      StepKeepsInv(lt, w.split, LockOf(w, m.tx));
    } else if m.Inner? {
      StepKeepsInv(lt, w.split, m.event);
    }
  }

  // ----- runs

  const START: World := World(EMPTY, map[])

  ghost function Play(lt: Collation, moves: seq<Move>): World {
    if moves == [] then START
    else
      var w, m := Play(lt, moves[..|moves| - 1]), moves[|moves| - 1];
      if Possible(lt, w, m) then After(lt, w, m) else w
  }

  ghost predicate PossibleAt(lt: Collation, moves: seq<Move>, i: nat)
    requires i < |moves|
  {
    Possible(lt, Play(lt, moves[..i]), moves[i])
  }

  /** A run: every move was possible when it was made. */
  ghost predicate Plays(lt: Collation, moves: seq<Move>) {
    forall i | 0 <= i < |moves| :: PossibleAt(lt, moves, i)
  }

  lemma Onward(lt: Collation, moves: seq<Move>, i: nat, j: nat)
    requires j == i + 1 <= |moves| && PossibleAt(lt, moves, i)
    ensures Play(lt, moves[..j]) == After(lt, Play(lt, moves[..i]), moves[i])
  {
    assert moves[..j][..i] == moves[..i];
  }

  // ----- deleted rows

  /** The move removes the row under `id` from the committed table. */
  predicate Removes(w: World, m: Move, id: Id) {
    && m.Inner? && m.event.Other? && m.event.statement.Complete?
    && id in Matching(w.split.table, m.event.statement.owner, m.event.statement.receipt)
  }

  /** A scan that knows of a removal keeps knowing of it, and does not lock what comes under that id. */
  lemma RemovalNoted(lt: Collation, w: World, m: Move, tx: Tx, id: Id)
    requires Possible(lt, w, m) && tx in w.scans && tx in After(lt, w, m).scans
    requires Removes(w, m, id) || (id in w.scans[tx].gone && id !in w.scans[tx].rows)
    ensures var s := After(lt, w, m).scans[tx]; id in s.gone && id !in s.rows
  {
    if Removes(w, m, id) {
      assert Spared(w, w.scans[tx], m.event);
    }
  }

  lemma {:induction false} PlaysSound(lt: Collation, moves: seq<Move>, n: nat)
    requires Plays(lt, moves) && n <= |moves|
    ensures Sound(lt, Play(lt, moves[..n]))
  {
    if n == 0 {
    } else {
      PlaysSound(lt, moves, n - 1);
      assert PossibleAt(lt, moves, n - 1);
      Onward(lt, moves, n - 1, n);
      SoundKept(lt, Play(lt, moves[..n - 1]), moves[n - 1]);
    }
  }

  /** What a move is to claims that take their locks at once. */
  function AtOnce(w: World, m: Move): seq<Event> {
    match m
    case Finish(tx) => if tx in w.scans then [LockOf(w, tx)] else []
    case Inner(e) => [e]
    case _ => []
  }

  ghost function AllAtOnce(lt: Collation, moves: seq<Move>): seq<Event> {
    if moves == [] then []
    else AllAtOnce(lt, moves[..|moves| - 1]) + AtOnce(Play(lt, moves[..|moves| - 1]), moves[|moves| - 1])
  }

  /** A scan is under way throughout. */
  ghost predicate Scanning(lt: Collation, moves: seq<Move>, tx: Tx, i: nat, j: nat)
    requires i <= j <= |moves|
  {
    forall l | i <= l <= j :: tx in Play(lt, moves[..l]).scans
  }

  /** A row removed while a scan is under way is not locked by it, even if another message is inserted under the
      same id. */
  lemma {:induction false} RemovedNotLocked(lt: Collation, moves: seq<Move>, tx: Tx, id: Id, i: nat, j: nat)
    requires Plays(lt, moves) && i < j <= |moves| && Scanning(lt, moves, tx, i, j)
    requires Removes(Play(lt, moves[..i]), moves[i], id)
    ensures var s := Play(lt, moves[..j]).scans[tx]; id in s.gone && id !in s.rows
    decreases j
  {
    var m := j - 1;
    if i < m {
      RemovedNotLocked(lt, moves, tx, id, i, m);
    }
    assert PossibleAt(lt, moves, m) && tx in Play(lt, moves[..m]).scans && tx in Play(lt, moves[..j]).scans;
    Onward(lt, moves, m, j);
    RemovalNoted(lt, Play(lt, moves[..m]), moves[m], tx, id);
  }

  lemma RunsMore(lt: Collation, events: seq<Event>, e: Event)
    requires OutboxSerial.Runs(lt, events) && Enabled(lt, OutboxSerial.Exec(lt, events), e)
    ensures OutboxSerial.Runs(lt, events + [e])
    ensures OutboxSerial.Exec(lt, events + [e]) == Next(lt, OutboxSerial.Exec(lt, events), e)
  {
    var longer := events + [e];
    assert longer[..|events|] == events;
    forall i | 0 <= i < |longer| ensures OutboxSerial.EnabledAt(lt, longer, i) {
      assert longer[..i] == events[..i];
      assert i < |events| ==> OutboxSerial.EnabledAt(lt, events, i);
    }
  }

  lemma StepAtOnce(lt: Collation, w: World, m: Move, events: seq<Event>)
    requires Possible(lt, w, m) && OutboxSerial.Runs(lt, events) && OutboxSerial.Exec(lt, events) == w.split
    ensures OutboxSerial.Runs(lt, events + AtOnce(w, m))
    ensures OutboxSerial.Exec(lt, events + AtOnce(w, m)) == After(lt, w, m).split
  {
    if m.Finish? {
      RunsMore(lt, events, LockOf(w, m.tx));
    } else if m.Inner? {
      RunsMore(lt, events, m.event);
    } else {
      assert events + [] == events;
    }
  }

  /** Every run with locks taken row by row is a run with locks taken at once, with the same tables. */
  lemma {:induction false} ScansRefineLocks(lt: Collation, moves: seq<Move>, n: nat)
    requires Plays(lt, moves) && n <= |moves|
    ensures OutboxSerial.Runs(lt, AllAtOnce(lt, moves[..n]))
    ensures OutboxSerial.Exec(lt, AllAtOnce(lt, moves[..n])) == Play(lt, moves[..n]).split
  {
    if n == 0 {
    } else {
      ScansRefineLocks(lt, moves, n - 1);
      assert PossibleAt(lt, moves, n - 1);
      Onward(lt, moves, n - 1, n);
      assert moves[..n][..n - 1] == moves[..n - 1];
      StepAtOnce(lt, Play(lt, moves[..n - 1]), moves[n - 1], AllAtOnce(lt, moves[..n - 1]));
    }
  }

  /** So row by row, too, the committed table is that of a run of atomic statements, in which each committed
      claim happens when it has locked its last row. */
  lemma ScanRunsSerialise(lt: Collation, moves: seq<Move>)
    requires Plays(lt, moves)
    ensures var events := AllAtOnce(lt, moves);
            var log := OutboxSerial.AtomicLog(lt, events, OutboxSerial.Committed(events));
            Play(lt, moves).split.table == Replay(lt, log) && Legal(lt, log)
  {
    ScansRefineLocks(lt, moves, |moves|);
    assert moves[..|moves|] == moves;
    OutboxSerial.SplitRunsSerialise(lt, AllAtOnce(lt, moves));
  }

  // ----- when the claim is the one that looks at the table at the end

  /** The row is claimable now, nobody has it, and it belongs before the end of what the scan has taken. */
  ghost predicate Overtaken(lt: Collation, w: World, tx: Tx, id: Id)
    requires tx in w.scans
  {
    var s := w.scans[tx];
    && id in w.split.table && Eligible(w.split.table[id], s.request.now)
    && id !in LockedByOthers(w, tx) && id !in s.rows
    && (|s.got| < s.request.limit
        || (s.got != [] && Earlier(lt)(Position(w.split.table[id].occurredAt, id), s.got[|s.got| - 1])))
  }

  /** The claim that takes its locks now, skipping what others have locked. */
  ghost function ClaimNow(lt: Collation, w: World, tx: Tx): seq<Position>
    requires tx in w.scans
  {
    Candidates(lt, w.split.table, w.scans[tx].request.now, LockedByOthers(w, tx), w.scans[tx].request.limit)
  }

  lemma GotWaits(lt: Collation, w: World, tx: Tx)
    requires Sound(lt, w) && tx in w.scans
    ensures var s, waiting := w.scans[tx], Waiting(w.split.table, w.scans[tx].request.now, LockedByOthers(w, tx));
            && Ascending(Earlier(lt), s.got) && Elements(s.got) <= waiting
            && |Elements(s.got)| == |s.got| <= s.request.limit
            && (forall q | q in waiting :: q in s.got <==> q.id in s.rows)
  {
    var s := w.scans[tx];
    assert Holds(s, w.split.table) && InOrder(lt, s);
    assert forall i | 0 <= i < |s.got| :: (s.got + s.todo)[i] == s.got[i];
    assert s.rows.Keys !! Locked(w.split);
    forall id | id in s.rows ensures id !in LockedByOthers(w, tx) {
      assert forall other | other in w.scans && other != tx :: w.scans[other].rows.Keys !! s.rows.Keys;
    }
    EarlierTotal(lt);
    ArrangementSize(Earlier(lt), s.got);
  }

  lemma NotOvertakenFirst(lt: Collation, w: World, tx: Tx, waiting: set<Position>)
    requires Sound(lt, w) && tx in w.scans
    requires waiting == Waiting(w.split.table, w.scans[tx].request.now, LockedByOthers(w, tx))
    requires forall id :: !Overtaken(lt, w, tx, id)
    ensures |w.scans[tx].got| == Least(w.scans[tx].request.limit, |waiting|)
    ensures Firsts(Earlier(lt), w.scans[tx].got, waiting)
  {
    var s := w.scans[tx];
    GotWaits(lt, w, tx);
    SubsetSize(Elements(s.got), waiting);
    forall q | q in waiting && q !in s.got ensures Behind(lt, s, q) {
      LeftOut(lt, w, tx, waiting, q);
    }
    LastBound(lt, s, waiting);
  }

  /** The scan has all it asked for, and the row does not come before the end of it. */
  ghost predicate Behind(lt: Collation, s: Scan, q: Position) {
    |s.got| == s.request.limit && (s.got != [] ==> !Earlier(lt)(q, s.got[|s.got| - 1]))
  }

  lemma LeftOut(lt: Collation, w: World, tx: Tx, waiting: set<Position>, q: Position)
    requires tx in w.scans && !Overtaken(lt, w, tx, q.id) && |w.scans[tx].got| <= w.scans[tx].request.limit
    requires waiting == Waiting(w.split.table, w.scans[tx].request.now, LockedByOthers(w, tx))
    requires q in waiting && q.id !in w.scans[tx].rows
    ensures Behind(lt, w.scans[tx], q)
  {
    assert q == Position(w.split.table[q.id].occurredAt, q.id);
  }

  lemma LastBound(lt: Collation, s: Scan, waiting: set<Position>)
    requires Ascending(Earlier(lt), s.got) && Elements(s.got) <= waiting && |Elements(s.got)| == |s.got|
    requires |s.got| <= s.request.limit && |s.got| <= |waiting|
    requires forall q | q in waiting && q !in s.got :: Behind(lt, s, q)
    ensures |s.got| == Least(s.request.limit, |waiting|) && Firsts(Earlier(lt), s.got, waiting)
  {
    if |s.got| < s.request.limit {
      assert forall q | q in waiting :: q in s.got;
      assert Elements(s.got) == waiting;
    }
    forall p, q | p in s.got && q in waiting && q !in s.got ensures Earlier(lt)(p, q) {
      assert Behind(lt, s, q);
      AfterTheLast(lt, s.got, p, q);
    }
  }

  lemma AfterTheLast(lt: Collation, got: seq<Position>, p: Position, q: Position)
    requires Ascending(Earlier(lt), got) && p in got && q !in got && !Earlier(lt)(q, got[|got| - 1])
    ensures Earlier(lt)(p, q)
  {
    EarlierTotal(lt);
    var last := got[|got| - 1];
    var i :| 0 <= i < |got| && got[i] == p;
    assert Comparable(Earlier(lt), q, last);
    assert Transitive(Earlier(lt), p, last, q);
  }

  lemma OvertakenLater(lt: Collation, w: World, tx: Tx, waiting: set<Position>, q: Position)
    requires Sound(lt, w) && tx in w.scans && Overtaken(lt, w, tx, q.id)
    requires waiting == Waiting(w.split.table, w.scans[tx].request.now, LockedByOthers(w, tx))
    requires q == Position(w.split.table[q.id].occurredAt, q.id)
    ensures !(|w.scans[tx].got| == Least(w.scans[tx].request.limit, |waiting|)
              && Firsts(Earlier(lt), w.scans[tx].got, waiting))
  {
    var s := w.scans[tx];
    GotWaits(lt, w, tx);
    EarlierTotal(lt);
    assert q in waiting && q !in s.got;
    if |s.got| < s.request.limit {
      SubsetSize(Elements(s.got) + {q}, waiting);
    } else {
      assert Asymmetric(Earlier(lt), q, s.got[|s.got| - 1]);
    }
  }

  lemma {:induction false} SubsetSize<T>(a: set<T>, b: set<T>)
    requires a <= b
    ensures |a| <= |b|
  {
    assert b == a + (b - a);
  }

  /** The rows taken are those of the one atomic claim at the end, skipping what others have locked then, if
      and only if no claimable row was overtaken. */
  lemma AtomicExactly(lt: Collation, w: World, tx: Tx)
    requires Sound(lt, w) && tx in w.scans
    ensures w.scans[tx].got == ClaimNow(lt, w, tx) <==> forall id :: !Overtaken(lt, w, tx, id)
  {
    var s := w.scans[tx];
    var waiting := Waiting(w.split.table, s.request.now, LockedByOthers(w, tx));
    GotWaits(lt, w, tx);
    SelectsTheFirst(lt, w.split.table, s.request.now, LockedByOthers(w, tx), s.request.limit, s.got);
    if forall id :: !Overtaken(lt, w, tx, id) {
      NotOvertakenFirst(lt, w, tx, waiting);
    }
    if id :| Overtaken(lt, w, tx, id) {
      OvertakenLater(lt, w, tx, waiting, Position(w.split.table[id].occurredAt, id));
    }
  }

  /** All that is claimable now was in the snapshot and has not been passed over. */
  ghost predicate UpToDate(lt: Collation, w: World, tx: Tx)
    requires tx in w.scans
  {
    forall p | p in Waiting(w.split.table, w.scans[tx].request.now, LockedByOthers(w, tx)) ::
      p.id !in w.scans[tx].gone && (p in w.scans[tx].got || p in w.scans[tx].todo)
  }

  lemma StartUpToDate(lt: Collation, w: World, m: Move)
    requires Possible(lt, w, m) && m.Start?
    ensures UpToDate(lt, After(lt, w, m), m.tx)
  {
    var queue := Queue(lt, w.split.table, m.request.now, {});
    forall p | p in Waiting(w.split.table, m.request.now, {}) ensures p in queue {
      assert p in Elements(queue);
    }
  }

  lemma OthersAsBefore(w: World, tx: Tx, s: Scan)
    ensures ScanLocked(w.(scans := w.scans[tx := s]), tx) == ScanLocked(w, tx)
  {
    var scans := w.scans[tx := s];
    assert forall other | other != tx :: other in scans <==> other in w.scans;
    assert forall other | other in w.scans && other != tx :: scans[other] == w.scans[other];
  }

  lemma VisitUpToDate(lt: Collation, w: World, m: Move)
    requires Possible(lt, w, m) && m.Visit? && UpToDate(lt, w, m.tx)
    ensures UpToDate(lt, After(lt, w, m), m.tx)
  {
    var tx, s, w' := m.tx, w.scans[m.tx], After(lt, w, m);
    OthersAsBefore(w, tx, Visited(w, tx));
    forall p | p in Waiting(w.split.table, s.request.now, LockedByOthers(w, tx))
      ensures p in w'.scans[tx].got || p in w'.scans[tx].todo
    {
      assert s.todo == [s.todo[0]] + s.todo[1..];
      assert p == s.todo[0] ==> Lockable(w, tx, p);
    }
  }

  lemma TodoIsLater(lt: Collation, s: Scan, p: Position)
    requires InOrder(lt, s) && s.got != [] && p in s.todo
    ensures !Earlier(lt)(p, s.got[|s.got| - 1])
  {
    var j :| 0 <= j < |s.todo| && s.todo[j] == p;
    var all, n := s.got + s.todo, |s.got|;
    assert all[n - 1] == s.got[n - 1] && all[n + j] == p;
    EarlierTotal(lt);
    assert Asymmetric(Earlier(lt), p, s.got[n - 1]);
  }

  lemma NothingOvertaken(lt: Collation, w: World, tx: Tx, id: Id)
    requires Sound(lt, w) && tx in w.scans && UpToDate(lt, w, tx)
    requires w.scans[tx].todo == [] || |w.scans[tx].got| == w.scans[tx].request.limit
    ensures !Overtaken(lt, w, tx, id)
  {
    var s := w.scans[tx];
    assert Holds(s, w.split.table) && InOrder(lt, s);
    if id in w.split.table {
      var p := Position(w.split.table[id].occurredAt, id);
      if p in s.todo && s.got != [] {
        TodoIsLater(lt, s, p);
      }
    }
  }

  /** A scan that ends while nothing claimable has escaped it is the one atomic claim. */
  lemma UpToDateIsAtomic(lt: Collation, w: World, tx: Tx)
    requires Sound(lt, w) && tx in w.scans && UpToDate(lt, w, tx)
    requires w.scans[tx].todo == [] || |w.scans[tx].got| == w.scans[tx].request.limit
    ensures w.scans[tx].got == ClaimNow(lt, w, tx)
  {
    forall id ensures !Overtaken(lt, w, tx, id) {
      NothingOvertaken(lt, w, tx, id);
    }
    AtomicExactly(lt, w, tx);
  }

  /** Up to `n` visits in a row. */
  ghost function AfterVisits(lt: Collation, w: World, tx: Tx, n: nat): World
    decreases n
  {
    if n == 0 || !Possible(lt, w, Visit(tx)) then w else AfterVisits(lt, After(lt, w, Visit(tx)), tx, n - 1)
  }

  lemma OneVisit(lt: Collation, w: World, tx: Tx)
    requires Sound(lt, w) && Possible(lt, w, Visit(tx)) && UpToDate(lt, w, tx)
    ensures var w' := After(lt, w, Visit(tx));
            && Sound(lt, w') && tx in w'.scans && UpToDate(lt, w', tx)
            && w'.split == w.split && w'.scans[tx].request == w.scans[tx].request
            && ScanLocked(w', tx) == ScanLocked(w, tx)
  {
    SoundKept(lt, w, Visit(tx));
    VisitUpToDate(lt, w, Visit(tx));
    OthersAsBefore(w, tx, Visited(w, tx));
  }

  lemma {:induction false} VisitsUpToDate(lt: Collation, w: World, tx: Tx, n: nat)
    requires Sound(lt, w) && tx in w.scans && UpToDate(lt, w, tx)
    ensures var w' := AfterVisits(lt, w, tx, n);
            && Sound(lt, w') && tx in w'.scans && UpToDate(lt, w', tx)
            && w'.split == w.split && w'.scans[tx].request == w.scans[tx].request
            && ScanLocked(w', tx) == ScanLocked(w, tx)
    decreases n
  {
    if n == 0 || !Possible(lt, w, Visit(tx)) {
    } else {
      OneVisit(lt, w, tx);
      VisitsUpToDate(lt, After(lt, w, Visit(tx)), tx, n - 1);
    }
  }

  /** A claim that nobody disturbs from its snapshot to its last lock is the atomic claim, skipping what others
      had locked when it began. */
  lemma UndisturbedIsAtomic(lt: Collation, w: World, tx: Tx, r: Request, n: nat)
    requires Sound(lt, w) && Possible(lt, w, Start(tx, r))
    requires var s := AfterVisits(lt, After(lt, w, Start(tx, r)), tx, n).scans;
             tx in s && (s[tx].todo == [] || |s[tx].got| == s[tx].request.limit)
    ensures AfterVisits(lt, After(lt, w, Start(tx, r)), tx, n).scans[tx].got
            == Candidates(lt, w.split.table, r.now, LockedByOthers(w, tx), r.limit)
  {
    var w1 := After(lt, w, Start(tx, r));
    SoundKept(lt, w, Start(tx, r));
    StartUpToDate(lt, w, Start(tx, r));
    OthersAsBefore(w, tx, w1.scans[tx]);
    VisitsUpToDate(lt, w1, tx, n);
    UpToDateIsAtomic(lt, AfterVisits(lt, w1, tx, n), tx);
  }

  // ----- a row that comes in behind the scan

  const SAMPLE: Content := Content("t", "m", "c", [0])

  /** Message `b` is stored; a claim of one row takes its snapshot; an older message `a` comes in; and the
      claim locks `b`. */
  function LateArrival(): seq<Move> {
    [Inner(Other(Insert("b", SAMPLE, 1))), Start(0, Request("o", 5, 9, 1, (id: Id) => id)),
     Inner(Other(Insert("a", SAMPLE, 0))), Visit(0)]
  }

  lemma PlaysMore(lt: Collation, moves: seq<Move>, m: Move)
    requires Plays(lt, moves) && Possible(lt, Play(lt, moves), m)
    ensures Plays(lt, moves + [m]) && Play(lt, moves + [m]) == After(lt, Play(lt, moves), m)
  {
    var longer := moves + [m];
    assert longer[..|moves|] == moves;
    forall i | 0 <= i < |longer| ensures PossibleAt(lt, longer, i) {
      assert longer[..i] == moves[..i];
      assert i < |moves| ==> PossibleAt(lt, moves, i);
    }
  }

  lemma SampleFits(id: Id)
    requires id == "a" || id == "b"
    ensures Storable(id, SAMPLE)
  {
    OneOctet(id);
    OneOctet("t");
    OneOctet("m");
    OneOctet("c");
  }

  lemma OneOctet(s: string)
    requires |s| == 1 && s[0] as int < 0x80
    ensures OctetLength(s) == 1
  {
    assert OctetsUpTo(s, 1) == OctetsUpTo(s, 0) + Width(s[0]);
  }

  function Stored(at: Time): Message {
    Message(SAMPLE, at, at, None, None, None, 0)
  }

  lemma Inserts(lt: Collation, w: World, id: Id, at: Time)
    requires (id == "a" || id == "b") && id !in w.split.table
    ensures var m := Inner(Other(Insert(id, SAMPLE, at)));
            && Possible(lt, w, m)
            && After(lt, w, m).split == w.split.(table := w.split.table[id := Stored(at)])
            && After(lt, w, m).scans == w.scans
  {
    SampleFits(id);
  }

  /** Row by row, a claim need not be the atomic claim at its end: here it takes `b`, where the atomic claim
      would take `a`. */
  lemma LateArrivalIsOvertaken(lt: Collation)
    ensures Plays(lt, LateArrival())
    ensures var w := Play(lt, LateArrival());
            && 0 in w.scans && |w.scans[0].got| == w.scans[0].request.limit && Overtaken(lt, w, 0, "a")
            && w.scans[0].got != ClaimNow(lt, w, 0)
  {
    var m := LateArrival();
    SnapshotOfB(lt, m[0], m[1]);
    var w2 := Play(lt, [m[0], m[1]]);
    Inserts(lt, w2, "a", 0);
    PlaysMore(lt, [m[0], m[1]], m[2]);
    assert [m[0], m[1]] + [m[2]] == [m[0], m[1], m[2]];
    LocksB(lt, Play(lt, [m[0], m[1], m[2]]), m[1].request);
    PlaysMore(lt, [m[0], m[1], m[2]], m[3]);
    assert [m[0], m[1], m[2]] + [m[3]] == m;
    NotTheAtomicClaim(lt, m, 0, "a");
  }

  lemma SnapshotOfB(lt: Collation, first: Move, second: Move)
    requires first == Inner(Other(Insert("b", SAMPLE, 1)))
    requires second.Start? && second.tx == 0 && second.request.now == 5
    ensures Plays(lt, [first, second])
    ensures Play(lt, [first, second])
            == World(EMPTY.(table := map["b" := Stored(1)]),
                     map[0 := Scan(second.request, [Position(1, "b")], [], map[], {})])
  {
    Inserts(lt, START, "b", 1);
    PlaysMore(lt, [], first);
    assert [] + [first] == [first];
    var w := World(EMPTY.(table := map["b" := Stored(1)]), map[]);
    assert Play(lt, [first]) == w;
    StartsOnB(lt, w, second);
    PlaysMore(lt, [first], second);
    assert [first] + [second] == [first, second];
  }

  lemma StartsOnB(lt: Collation, w: World, m: Move)
    requires w.split == EMPTY.(table := map["b" := Stored(1)]) && w.scans == map[]
    requires m.Start? && m.tx == 0 && m.request.now == 5
    ensures Possible(lt, w, m)
    ensures After(lt, w, m) == World(w.split, map[0 := Scan(m.request, [Position(1, "b")], [], map[], {})])
  {
    OnlyOne(lt, w.split.table, "b", 5);
  }

  lemma NotTheAtomicClaim(lt: Collation, moves: seq<Move>, tx: Tx, id: Id)
    requires Plays(lt, moves) && tx in Play(lt, moves).scans && Overtaken(lt, Play(lt, moves), tx, id)
    ensures Play(lt, moves).scans[tx].got != ClaimNow(lt, Play(lt, moves), tx)
  {
    PlaysSound(lt, moves, |moves|);
    assert moves[..|moves|] == moves;
    AtomicExactly(lt, Play(lt, moves), tx);
  }

  lemma LocksB(lt: Collation, w: World, r: Request)
    requires w.split.pending == map[] && w.split.table == map["b" := Stored(1), "a" := Stored(0)]
    requires w.scans == map[0 := Scan(r, [Position(1, "b")], [], map[], {})] && r.limit == 1 && r.now == 5
    ensures Possible(lt, w, Visit(0))
    ensures var w' := After(lt, w, Visit(0));
            0 in w'.scans && w'.scans[0].got == [Position(1, "b")] && Overtaken(lt, w', 0, "a")
  {
    assert Lockable(w, 0, Position(1, "b"));
    OthersAsBefore(w, 0, Visited(w, 0));
  }

  lemma OnlyOne(lt: Collation, t: Table, id: Id, now: Time)
    requires t.Keys == {id} && Eligible(t[id], now)
    ensures Queue(lt, t, now, {}) == [Position(t[id].occurredAt, id)]
  {
    var p := Position(t[id].occurredAt, id);
    EarlierTotal(lt);
    assert Waiting(t, now, {}) == {p} == Elements([p]);
    ArrangementIs(Earlier(lt), [p], {p});
  }
}

/** A session that runs from start to end without interruption: which events that takes, where it leads,
    and when it succeeds. */
module MigrationSolo {
  import opened Sql
  import opened MigrationVersion
  import opened MigrationPlan
  import opened MigrationSessions
  import opened MigrationSerial

  // ----- putting runs together

  lemma RunsThen(start: Database, events: seq<Event>, e: Event)
    requires Runs(start, events) && Enabled(Exec(start, events), e)
    ensures Runs(start, events + [e])
    ensures Exec(start, events + [e]) == Next(Exec(start, events), e)
  {
    var all := events + [e];
    assert all[..|events|] == events;
    forall i | 0 <= i < |all| ensures EnabledAt(start, all, i) {
      assert all[..i] == events[..i];
      assert i < |events| ==> EnabledAt(start, events, i);
    }
  }

  lemma {:induction false} RunsJoin(start: Database, a: seq<Event>, b: seq<Event>)
    requires Runs(start, a) && Runs(Exec(start, a), b)
    ensures Runs(start, a + b) && Exec(start, a + b) == Exec(Exec(start, a), b)
  {
    if b == [] {
      assert a + b == a;
    } else {
      var front, last := b[..|b| - 1], b[|b| - 1];
      RunsPrefix(Exec(start, a), b, |b| - 1);
      RunsJoin(start, a, front);
      Forward(Exec(start, a), b, |b| - 1, |b|);
      assert b[..|b|] == b;
      RunsThen(start, a + front, last);
      assert a + b == a + front + [last];
    }
  }

  lemma RunsPrefix(start: Database, events: seq<Event>, n: nat)
    requires Runs(start, events) && n <= |events|
    ensures Runs(start, events[..n])
  {
    forall i | 0 <= i < n ensures EnabledAt(start, events[..n], i) {
      assert events[..n][..i] == events[..i];
      assert EnabledAt(start, events, i);
    }
  }

  lemma RunsStep(d: Database, e: Event)
    requires Enabled(d, e)
    ensures Runs(d, [e]) && Exec(d, [e]) == Next(d, e)
  {
    RunsThen(d, [], e);
    assert [] + [e] == [e];
  }

  // ----- one session by itself

  ghost predicate ByOne(events: seq<Event>, id: SessionId) {
    forall i | 0 <= i < |events| :: events[i].session == id
  }

  /** How a session comes to its end after its migrations: it returns nil and keeps its connection, or fails
      and gives the lock back, or fails and loses its connection. */
  datatype Exit = Finishes | GivesUp | BreaksOff

  function Transaction(id: SessionId): seq<Event> {
    [Event(id, Begin), Event(id, Script), Event(id, Record), Event(id, Commit(true))]
  }

  function ApplyEvents(id: SessionId, k: nat): seq<Event> {
    if k == 0 then []
    else ApplyEvents(id, k - 1) + Transaction(id)
  }

  function EnterEvents(id: SessionId): seq<Event> {
    [Event(id, Acquire), Event(id, CreateRegistry), Event(id, Read)]
  }

  /** From the start until the first `k` migrations are committed. */
  function WorkEvents(id: SessionId, k: nat): seq<Event> {
    EnterEvents(id) + ApplyEvents(id, k)
  }

  function LeaveEvents(id: SessionId, exit: Exit): seq<Event> {
    match exit
    case Finishes => [Event(id, Stop), Event(id, Unlock)]
    case GivesUp => [Event(id, Fail), Event(id, Unlock)]
    case BreaksOff => [Event(id, Fail), Event(id, UnlockFails(true)), Event(id, Close)]
  }

  /** `RunLocked` from start to end, committing `k` migrations. */
  function SoloEvents(id: SessionId, k: nat, exit: Exit): seq<Event> {
    WorkEvents(id, k) + LeaveEvents(id, exit)
  }

  function MissingFor(d: Database, id: SessionId): seq<Migration>
    requires id in d.sessions
  {
    Missing(d.registry.Keys, d.sessions[id].plan)
  }

  /** The session can start: it is idle, its connection lives, and nobody holds its lock. */
  ghost predicate CanStart(d: Database, id: SessionId) {
    && Good(d) && id in d.sessions && id !in d.commits
    && d.sessions[id].alive && d.sessions[id].phase.Idle? && d.sessions[id].lock !in d.holders
  }

  /** The registry takes these migrations from the session: they can be recorded, and no open transaction of
      a session with another lock has inserted one of their versions. */
  ghost predicate Takes(d: Database, id: SessionId, todo: seq<Migration>) {
    Recordable(d.registry.Keys, todo) && forall i | 0 <= i < |todo| :: !Contended(d, id, todo[i].version)
  }

  /** Nobody but the session has moved; it holds its lock and has `todo` still to apply. */
  ghost predicate GoesOnWith(d: Database, now: Database, id: SessionId, todo: seq<Migration>)
    requires id in d.sessions
  {
    var s := d.sessions[id];
    && now.sessions == d.sessions[id := Session(s.plan, s.lock, Planned(todo), true, [], [])]
    && now.holders == d.holders[s.lock := id] && now.order == d.order + [id]
  }

  /** What the database holds beyond `d`, and that the session has committed it. */
  ghost predicate Added(d: Database, now: Database, id: SessionId, more: seq<Migration>) {
    && now.registry.Keys == d.registry.Keys + Versions(more)
    && now.effects == d.effects + more
    && now.commits == if more == [] then d.commits else d.commits[id := |more|]
  }

  /** In `now`, the session has committed the first `k` of what it found missing in `d`, and goes on. */
  ghost predicate AtWork(d: Database, now: Database, id: SessionId, k: nat)
    requires id in d.sessions
  {
    && k <= |MissingFor(d, id)|
    && GoesOnWith(d, now, id, MissingFor(d, id)[k..]) && Added(d, now, id, MissingFor(d, id)[..k])
  }

  lemma Enters(d: Database, id: SessionId)
    requires CanStart(d, id)
    ensures Runs(d, EnterEvents(id)) && AtWork(d, Exec(d, EnterEvents(id)), id, 0)
  {
    var e0, e1, e2 := Event(id, Acquire), Event(id, CreateRegistry), Event(id, Read);
    RunsStep(d, e0);
    RunsThen(d, [e0], e1);
    assert [e0] + [e1] == [e0, e1];
    RunsThen(d, [e0, e1], e2);
    assert [e0, e1] + [e2] == [e0, e1, e2];
  }

  lemma ContendedAlike(d: Database, now: Database, id: SessionId, v: UInt64)
    requires id in d.sessions && id in now.sessions
    requires now.sessions == d.sessions[id := now.sessions[id]]
    ensures Contended(now, id, v) <==> Contended(d, id, v)
  {
    forall other: SessionId | other != id ensures Inserting(now, other) == Inserting(d, other) {
    }
  }

  /** The steps of a transaction before its commit concern nobody else. */
  lemma StagingIsPrivate(d: Database, e: Event)
    requires Enabled(d, e) && (e.action.Begin? || e.action.Script? || e.action.Record?)
    ensures Next(d, e) == d.(sessions := Next(d, e).sessions)
    ensures var s := d.sessions[e.session];
            && s.phase.todo != []
            && Next(d, e).sessions == d.sessions[e.session := Session(
                 s.plan, s.lock, PhaseAfter(d, e), s.alive,
                 if e.action.Script? then s.ran + [s.phase.todo[0]] else if e.action.Record? then s.ran else [],
                 if e.action.Record? then s.rows + [s.phase.todo[0]] else [])]
  {
  }

  lemma Staged3(d: Database, id: SessionId)
    requires id in d.sessions && d.sessions[id].alive
    requires d.sessions[id].phase.Planned? && d.sessions[id].phase.todo != []
    requires var m := d.sessions[id].phase.todo[0];
             Acceptable(m) && RegistryChecks(m) && m.version !in d.registry && !Contended(d, id, m.version)
    ensures var events := [Event(id, Begin), Event(id, Script), Event(id, Record)];
            var s := d.sessions[id];
            && Runs(d, events)
            && Exec(d, events) == d.(sessions := d.sessions[id := Session(
                 s.plan, s.lock, Recorded(s.phase.todo), true, [s.phase.todo[0]], [s.phase.todo[0]])])
  {
    var s := d.sessions[id];
    var todo := s.phase.todo;
    var e0, e1, e2 := Event(id, Begin), Event(id, Script), Event(id, Record);
    RunsStep(d, e0);
    StagingIsPrivate(d, e0);
    var d1 := Exec(d, [e0]);
    assert d1.sessions[id] == Session(s.plan, s.lock, Opened(todo), true, [], []);
    RunsThen(d, [e0], e1);
    StagingIsPrivate(d1, e1);
    assert [e0] + [e1] == [e0, e1];
    var d2 := Exec(d, [e0, e1]);
    assert [] + [todo[0]] == [todo[0]];
    assert d2.sessions == d.sessions[id := Session(s.plan, s.lock, Scripted(todo), true, [todo[0]], [])];
    ContendedAlike(d, d2, id, todo[0].version);
    RunsThen(d, [e0, e1], e2);
    StagingIsPrivate(d2, e2);
    assert [e0, e1] + [e2] == [e0, e1, e2];
  }

  lemma CommitPublishes(d: Database, id: SessionId, todo: seq<Migration>)
    requires id in d.sessions && d.sessions[id].alive && todo != [] && d.sessions[id].phase == Recorded(todo)
    requires d.sessions[id].ran == [todo[0]] && d.sessions[id].rows == [todo[0]]
    ensures var s, m := d.sessions[id], todo[0];
            && Enabled(d, Event(id, Commit(true)))
            && Next(d, Event(id, Commit(true))) == Database(
                 d.sessions[id := Session(s.plan, s.lock, Planned(todo[1..]), true, [], [])], d.holders,
                 d.registry[m.version := m], d.effects + [m], d.base, d.order,
                 d.commits[id := CommitsOf(d, id) + 1])
  {
    InsertedOne(d.registry, todo[0]);
  }

  /** One migration, from begin to commit. */
  lemma OneTransaction(d: Database, id: SessionId)
    requires id in d.sessions && d.sessions[id].alive
    requires d.sessions[id].phase.Planned? && d.sessions[id].phase.todo != []
    requires var m := d.sessions[id].phase.todo[0];
             Acceptable(m) && RegistryChecks(m) && m.version !in d.registry && !Contended(d, id, m.version)
    ensures var s := d.sessions[id];
            var m := s.phase.todo[0];
            && Runs(d, Transaction(id))
            && Exec(d, Transaction(id)) == Database(
                 d.sessions[id := Session(s.plan, s.lock, Planned(s.phase.todo[1..]), true, [], [])], d.holders,
                 d.registry[m.version := m], d.effects + [m], d.base, d.order,
                 d.commits[id := CommitsOf(d, id) + 1])
  {
    Staged3(d, id);
    var staging, commit := [Event(id, Begin), Event(id, Script), Event(id, Record)], Event(id, Commit(true));
    CommitPublishes(Exec(d, staging), id, d.sessions[id].phase.todo);
    RunsThen(d, staging, commit);
    assert staging + [commit] == Transaction(id);
  }

  lemma NextIsTaken(d: Database, now: Database, id: SessionId, k: nat)
    requires id in d.sessions && AtWork(d, now, id, k) && k < |MissingFor(d, id)|
    requires Takes(d, id, MissingFor(d, id)[..k + 1])
    ensures var m := MissingFor(d, id)[k];
            && Acceptable(m) && RegistryChecks(m) && m.version !in now.registry && !Contended(now, id, m.version)
  {
    var todo := MissingFor(d, id);
    var m := todo[..k + 1][k];
    assert m == todo[k];
    assert m.version !in Versions(todo[..k]) by {
      assert forall i | 0 <= i < k :: todo[..k][i] == todo[..k + 1][i];
    }
    ContendedAlike(d, now, id, m.version);
  }

  lemma CommitCounts(d: Database, id: SessionId, j: nat, k: nat)
    requires id in d.sessions && k == j + 1 <= |MissingFor(d, id)|
    ensures var todo := MissingFor(d, id);
            && todo[..k] == todo[..j] + [todo[j]] && todo[j..][0] == todo[j] && todo[j..][1..] == todo[k..]
            && Versions(todo[..k]) == Versions(todo[..j]) + {todo[j].version}
            && d.effects + todo[..j] + [todo[j]] == d.effects + todo[..k]
  {
    var todo := MissingFor(d, id);
    assert todo[..k] == todo[..j] + [todo[j]];
    VersionsMore(todo[..j], todo[j]);
  }

  lemma GoesOnFrom(d: Database, now: Database, after: Database, id: SessionId, todo: seq<Migration>,
                   rest: seq<Migration>)
    requires id in d.sessions && GoesOnWith(d, now, id, todo)
    requires var s := now.sessions[id];
             after.sessions == now.sessions[id := Session(s.plan, s.lock, Planned(rest), true, [], [])]
    requires after.holders == now.holders && after.order == now.order
    ensures GoesOnWith(d, after, id, rest)
  {
  }

  lemma AddedOne(d: Database, now: Database, after: Database, id: SessionId, before: seq<Migration>, m: Migration,
                 more: seq<Migration>)
    requires id !in d.commits && Added(d, now, id, before) && more == before + [m]
    requires after.registry == now.registry[m.version := m] && after.effects == now.effects + [m]
    requires after.commits == now.commits[id := CommitsOf(now, id) + 1]
    ensures Added(d, after, id, more)
  {
    VersionsMore(before, m);
  }

  /** One more migration. */
  lemma WorksOn(d: Database, now: Database, id: SessionId, j: nat, k: nat)
    requires CanStart(d, id) && k == j + 1 <= |MissingFor(d, id)| && AtWork(d, now, id, j)
    requires Takes(d, id, MissingFor(d, id)[..k])
    ensures Runs(now, Transaction(id)) && AtWork(d, Exec(now, Transaction(id)), id, k)
  {
    NextIsTaken(d, now, id, j);
    CommitCounts(d, id, j, k);
    OneTransaction(now, id);
    var todo, after := MissingFor(d, id), Exec(now, Transaction(id));
    GoesOnFrom(d, now, after, id, todo[j..], todo[k..]);
    AddedOne(d, now, after, id, todo[..j], todo[j], todo[..k]);
  }

  lemma WorkEventsMore(id: SessionId, j: nat, k: nat)
    requires k == j + 1
    ensures WorkEvents(id, k) == WorkEvents(id, j) + Transaction(id)
  {
    assert ApplyEvents(id, k) == ApplyEvents(id, j) + Transaction(id);
  }

  lemma {:induction false} Works(d: Database, id: SessionId, k: nat)
    requires CanStart(d, id) && k <= |MissingFor(d, id)| && Takes(d, id, MissingFor(d, id)[..k])
    ensures Runs(d, WorkEvents(id, k)) && AtWork(d, Exec(d, WorkEvents(id, k)), id, k)
  {
    if k == 0 {
      Enters(d, id);
      assert WorkEvents(id, 0) == EnterEvents(id);
    } else {
      var j := k - 1;
      TakesPrefix(d, id, MissingFor(d, id)[..k], j);
      assert MissingFor(d, id)[..k][..j] == MissingFor(d, id)[..j];
      Works(d, id, j);
      WorksMore(d, id, WorkEvents(id, j), j, k);
      WorkEventsMore(id, j, k);
    }
  }

  lemma WorksMore(d: Database, id: SessionId, before: seq<Event>, j: nat, k: nat)
    requires CanStart(d, id) && k == j + 1 <= |MissingFor(d, id)| && Takes(d, id, MissingFor(d, id)[..k])
    requires Runs(d, before) && AtWork(d, Exec(d, before), id, j)
    ensures Runs(d, before + Transaction(id)) && AtWork(d, Exec(d, before + Transaction(id)), id, k)
  {
    WorksOn(d, Exec(d, before), id, j, k);
    RunsJoin(d, before, Transaction(id));
  }

  lemma TakesPrefix(d: Database, id: SessionId, todo: seq<Migration>, n: nat)
    requires Takes(d, id, todo) && n <= |todo|
    ensures Takes(d, id, todo[..n])
  {
    assert forall i | 0 <= i < n :: todo[..n][i] == todo[i];
  }

  /** What a session by itself leaves behind: the first `k` of what it found missing, its lock free again, and
      nobody else concerned. */
  ghost predicate SoloResult(d: Database, after: Database, id: SessionId, k: nat, exit: Exit)
    requires id in d.sessions
  {
    var s, todo := d.sessions[id], MissingFor(d, id);
    && k <= |todo|
    && after.sessions == d.sessions[id := Session(s.plan, s.lock, Done(exit.Finishes?), !exit.BreaksOff?, [], [])]
    && after.holders == d.holders
    && after.effects == d.effects + todo[..k]
    && after.order == d.order + [id]
    && after.commits == (if k == 0 then d.commits else d.commits[id := k])
  }

  /** Only the session's own entries and its lock change on its way out. */
  lemma PlainStep(d: Database, e: Event)
    requires Enabled(d, e)
    requires e.action.Stop? || e.action.Fail? || e.action.Unlock? || e.action.UnlockFails? || e.action.Close?
    ensures var s := d.sessions[e.session];
            Next(d, e) == d.(
              sessions := d.sessions[e.session := Session(
                s.plan, s.lock, PhaseAfter(d, e), s.alive && !e.action.Close?, [], [])],
              holders := HoldersAfter(d, e))
  {
  }

  /** `now` is `d` but for the session, which stands in `phase` and holds its lock. */
  ghost predicate Holding(d: Database, now: Database, id: SessionId, phase: Phase)
    requires id in d.sessions
  {
    && now.sessions == d.sessions[id := Session(d.sessions[id].plan, d.sessions[id].lock, phase, true, [], [])]
    && now.holders == d.holders[d.sessions[id].lock := id]
  }

  lemma FreedAgain(d: Database, id: SessionId)
    requires CanStart(d, id)
    ensures var held := d.holders[d.sessions[id].lock := id];
            (map l | l in held && held[l] != id :: held[l]) == d.holders
    ensures (map l | l in d.holders && d.holders[l] != id :: d.holders[l]) == d.holders
  {
    forall l | l in d.holders ensures d.holders[l] != id {
    }
  }

  lemma GetsReady(d: Database, now: Database, id: SessionId, todo: seq<Migration>, failed: bool)
    requires id in d.sessions && Holding(d, now, id, Planned(todo)) && (!failed ==> todo == [])
    ensures var e := Event(id, if failed then Fail else Stop);
            && Runs(now, [e]) && Holding(d, Exec(now, [e]), id, Leaving(failed))
            && Exec(now, [e]) == now.(sessions := Exec(now, [e]).sessions)
  {
    var e := Event(id, if failed then Fail else Stop);
    RunsStep(now, e);
    PlainStep(now, e);
  }

  lemma Unlocks(d: Database, now: Database, id: SessionId, failed: bool)
    requires CanStart(d, id) && Holding(d, now, id, Leaving(failed))
    ensures var s, e := d.sessions[id], Event(id, Unlock);
            && Runs(now, [e])
            && Exec(now, [e]) == now.(
                 sessions := d.sessions[id := Session(s.plan, s.lock, Done(!failed), true, [], [])],
                 holders := d.holders)
  {
    FreedAgain(d, id);
    RunsStep(now, Event(id, Unlock));
    PlainStep(now, Event(id, Unlock));
  }

  lemma Breaks(d: Database, now: Database, id: SessionId)
    requires CanStart(d, id) && Holding(d, now, id, Leaving(true))
    ensures var s, events := d.sessions[id], [Event(id, UnlockFails(true)), Event(id, Close)];
            && Runs(now, events)
            && Exec(now, events) == now.(
                 sessions := d.sessions[id := Session(s.plan, s.lock, Done(false), false, [], [])],
                 holders := d.holders)
  {
    var e0, e1 := Event(id, UnlockFails(true)), Event(id, Close);
    FreedAgain(d, id);
    RunsStep(now, e0);
    PlainStep(now, e0);
    RunsThen(now, [e0], e1);
    PlainStep(Exec(now, [e0]), e1);
    assert [e0] + [e1] == [e0, e1];
  }

  lemma Leaves(d: Database, now: Database, id: SessionId, k: nat, exit: Exit)
    requires CanStart(d, id) && AtWork(d, now, id, k)
    requires exit.Finishes? ==> k == |MissingFor(d, id)|
    ensures Runs(now, LeaveEvents(id, exit)) && SoloResult(d, Exec(now, LeaveEvents(id, exit)), id, k, exit)
  {
    var first := [Event(id, if exit.Finishes? then Stop else Fail)];
    var rest := if exit.BreaksOff? then [Event(id, UnlockFails(true)), Event(id, Close)] else [Event(id, Unlock)];
    assert LeaveEvents(id, exit) == first + rest;
    GetsReady(d, now, id, MissingFor(d, id)[k..], !exit.Finishes?);
    if exit.BreaksOff? {
      Breaks(d, Exec(now, first), id);
    } else {
      Unlocks(d, Exec(now, first), id, !exit.Finishes?);
    }
    RunsJoin(now, first, rest);
  }

  /** A session can run from start to end by itself, committing any number `k` of migrations that the
      registry takes, and ending in any way; it returns nil only if it has applied all that was missing. */
  lemma Solo(d: Database, id: SessionId, k: nat, exit: Exit)
    requires CanStart(d, id) && k <= |MissingFor(d, id)| && Takes(d, id, MissingFor(d, id)[..k])
    requires exit.Finishes? ==> k == |MissingFor(d, id)|
    ensures var events := SoloEvents(id, k, exit);
            && ByOne(events, id) && Runs(d, events)
            && Good(Exec(d, events)) && SoloResult(d, Exec(d, events), id, k, exit)
  {
    SoloLeads(d, id, k, exit);
    AllByOne(id, k);
    var events := SoloEvents(id, k, exit);
    GoodAlong(d, events, |events|);
    assert events[..|events|] == events;
  }

  lemma SoloLeads(d: Database, id: SessionId, k: nat, exit: Exit)
    requires CanStart(d, id) && k <= |MissingFor(d, id)| && Takes(d, id, MissingFor(d, id)[..k])
    requires exit.Finishes? ==> k == |MissingFor(d, id)|
    ensures Runs(d, SoloEvents(id, k, exit)) && SoloResult(d, Exec(d, SoloEvents(id, k, exit)), id, k, exit)
  {
    Works(d, id, k);
    var working := WorkEvents(id, k);
    Leaves(d, Exec(d, working), id, k, exit);
    RunsJoin(d, working, LeaveEvents(id, exit));
  }

  lemma {:induction false} AllByOne(id: SessionId, k: nat)
    ensures ByOne(ApplyEvents(id, k), id)
  {
    if k == 0 {
    } else {
      AllByOne(id, k - 1);
    }
  }

  // ----- when a session can succeed by itself

  /** Its connection lives, and nobody holds its lock. */
  predicate Startable(d: Database, id: SessionId)
    requires id in d.sessions
  {
    d.sessions[id].alive && d.sessions[id].lock !in d.holders
  }

  /** Nobody but the session has moved. */
  ghost predicate OthersStay(d: Database, now: Database, id: SessionId)
    requires id in d.sessions
  {
    && id in now.sessions && now.sessions == d.sessions[id := now.sessions[id]]
    && now.sessions[id].plan == d.sessions[id].plan && now.sessions[id].lock == d.sessions[id].lock
  }

  /** The session has committed the first `k` of what it found missing, and the registry could take them. */
  ghost predicate HasCommitted(d: Database, now: Database, id: SessionId, k: nat)
    requires id in d.sessions
  {
    var todo := MissingFor(d, id);
    && k == CommitsOf(now, id) && k <= |todo| && Takes(d, id, todo[..k])
    && now.registry.Keys == d.registry.Keys + Versions(todo[..k])
    && now.effects == d.effects + todo[..k]
  }

  /** Where that leaves the session: `s` is its state, and it could start if `startable`. */
  predicate Stands(s: Session, todo: seq<Migration>, k: nat, startable: bool) {
    match s.phase
    case Idle => k == 0
    case Locked => k == 0 && startable
    case Ready => k == 0 && startable
    case Planned(rest) => k <= |todo| && rest == todo[k..] && startable
    case Opened(rest) => k <= |todo| && rest == todo[k..] && startable
    case Scripted(rest) => k <= |todo| && rest == todo[k..] && startable
    case Recorded(rest) => k <= |todo| && rest == todo[k..] && startable
    case Leaving(failed) => !failed ==> k == |todo| && startable
    case Closing => true
    case Done(ok) => ok ==> k == |todo| && startable
  }

  /** `now` has been reached from `d`, where the session was idle, by its own events. */
  ghost predicate Tracks(d: Database, now: Database, id: SessionId)
    requires id in d.sessions
  {
    && OthersStay(d, now, id)
    && HasCommitted(d, now, id, CommitsOf(now, id))
    && Stands(now.sessions[id], MissingFor(d, id), CommitsOf(now, id), Startable(d, id))
    && (now.sessions[id].phase.Idle? ==> now.holders == d.holders && (now.sessions[id].alive ==> d.sessions[id].alive))
  }

  lemma QuietStands(now: Database, e: Event, todo: seq<Migration>, k: nat, startable: bool)
    requires Enabled(now, e) && !e.action.Commit?
    requires Stands(now.sessions[e.session], todo, k, startable)
    requires e.action.Acquire? ==> startable
    requires e.action.Read? && k == 0 ==> todo == MissingFor(now, e.session)
    ensures Stands(Next(now, e).sessions[e.session], todo, k, startable)
  {
  }

  lemma IdleHolders(d: Database, now: Database, e: Event)
    requires Good(d) && e.session in d.sessions && d.sessions[e.session].phase.Idle?
    requires now.holders == d.holders && Enabled(now, e) && !e.action.Acquire?
    ensures Next(now, e).holders == d.holders
  {
    forall l | l in d.holders ensures d.holders[l] != e.session {
    }
  }

  lemma OthersStayOn(d: Database, now: Database, e: Event)
    requires e.session in d.sessions && OthersStay(d, now, e.session) && Enabled(now, e)
    ensures OthersStay(d, Next(now, e), e.session)
  {
    PlansStay(now, e);
  }

  lemma QuietAmount(d: Database, now: Database, e: Event, k: nat)
    requires e.session in d.sessions && HasCommitted(d, now, e.session, k) && Enabled(now, e) && !e.action.Commit?
    ensures HasCommitted(d, Next(now, e), e.session, k)
  {
    assert Next(now, e).registry == now.registry && Next(now, e).effects == now.effects;
    assert Next(now, e).commits == now.commits;
  }

  lemma StillMissing(d: Database, now: Database, id: SessionId)
    requires id in d.sessions && OthersStay(d, now, id) && HasCommitted(d, now, id, 0)
    ensures MissingFor(now, id) == MissingFor(d, id)
  {
    assert Versions(MissingFor(d, id)[..0]) == {};
    assert now.registry.Keys == d.registry.Keys;
  }

  lemma QuietTracks(d: Database, now: Database, e: Event)
    requires Good(d) && e.session in d.sessions && d.sessions[e.session].phase.Idle?
    requires Tracks(d, now, e.session) && Enabled(now, e) && !e.action.Commit?
    ensures Tracks(d, Next(now, e), e.session)
  {
    var id, k := e.session, CommitsOf(now, e.session);
    OthersStayOn(d, now, e);
    QuietAmount(d, now, e, k);
    if k == 0 {
      StillMissing(d, now, id);
    }
    QuietStands(now, e, MissingFor(d, id), k, Startable(d, id));
    if now.sessions[id].phase.Idle? && !e.action.Acquire? {
      IdleHolders(d, now, e);
    }
  }

  lemma CommitTakes(d: Database, now: Database, id: SessionId, k: nat)
    requires Good(now) && id in d.sessions && OthersStay(d, now, id)
    requires HasCommitted(d, now, id, k) && k < |MissingFor(d, id)|
    requires Inserting(now, id) == Some(MissingFor(d, id)[k]) && Acceptable(MissingFor(d, id)[k])
    ensures Takes(d, id, MissingFor(d, id)[..k + 1])
  {
    ContendedAlike(d, now, id, MissingFor(d, id)[k].version);
    TakesMore(d, id, MissingFor(d, id), k);
  }

  lemma CommitAmount(d: Database, now: Database, after: Database, id: SessionId, k: nat)
    requires id in d.sessions && HasCommitted(d, now, id, k) && k < |MissingFor(d, id)|
    requires Takes(d, id, MissingFor(d, id)[..k + 1]) && CommitsOf(after, id) == k + 1
    requires after.registry.Keys == now.registry.Keys + {MissingFor(d, id)[k].version}
    requires after.effects == now.effects + [MissingFor(d, id)[k]]
    ensures HasCommitted(d, after, id, k + 1)
  {
    CommitCounts(d, id, k, k + 1);
  }

  lemma CommitCommits(d: Database, now: Database, e: Event, k: nat)
    requires Good(now) && e.session in d.sessions && OthersStay(d, now, e.session)
    requires HasCommitted(d, now, e.session, k) && k < |MissingFor(d, e.session)|
    requires Enabled(now, e) && e.action.Commit? && now.sessions[e.session].phase.todo == MissingFor(d, e.session)[k..]
    ensures HasCommitted(d, Next(now, e), e.session, k + 1)
  {
    RegistryAfter(now, e);
    assert CommitsOf(Next(now, e), e.session) == k + 1;
    CommitTakes(d, now, e.session, k);
    CommitAmount(d, now, Next(now, e), e.session, k);
  }

  lemma CommitMoves(d: Database, now: Database, e: Event)
    requires e.session in d.sessions && Tracks(d, now, e.session) && Enabled(now, e) && e.action.Commit?
    ensures var id, k := e.session, CommitsOf(now, e.session);
            && k < |MissingFor(d, id)| && now.sessions[id].phase.todo == MissingFor(d, id)[k..]
            && OthersStay(d, Next(now, e), id)
            && Stands(Next(now, e).sessions[id], MissingFor(d, id), k + 1, Startable(d, id))
            && !Next(now, e).sessions[id].phase.Idle?
  {
    OthersStayOn(d, now, e);
  }

  lemma CommitTracks(d: Database, now: Database, e: Event)
    requires Good(now) && e.session in d.sessions
    requires Tracks(d, now, e.session) && Enabled(now, e) && e.action.Commit?
    ensures Tracks(d, Next(now, e), e.session)
  {
    CommitMoves(d, now, e);
    CommitCommits(d, now, e, CommitsOf(now, e.session));
  }

  lemma TakesMore(d: Database, id: SessionId, todo: seq<Migration>, k: nat)
    requires k < |todo| && Takes(d, id, todo[..k])
    requires Acceptable(todo[k]) && RegistryChecks(todo[k]) && !Contended(d, id, todo[k].version)
    requires todo[k].version !in d.registry.Keys + Versions(todo[..k])
    ensures Takes(d, id, todo[..k + 1])
  {
    forall i | 0 <= i < k ensures todo[..k + 1][i] == todo[..k][i] && todo[i].version != todo[k].version {
      assert todo[..k][i].version in Versions(todo[..k]);
    }
  }

  lemma StepTracks(d: Database, now: Database, e: Event)
    requires Good(d) && Good(now) && e.session in d.sessions && d.sessions[e.session].phase.Idle?
    requires Tracks(d, now, e.session) && Enabled(now, e)
    ensures Tracks(d, Next(now, e), e.session)
  {
    if e.action.Commit? {
      CommitTracks(d, now, e);
    } else {
      QuietTracks(d, now, e);
    }
  }

  lemma {:induction false} TracksAlong(d: Database, events: seq<Event>, id: SessionId, n: nat)
    requires Good(d) && id in d.sessions && id !in d.commits && d.sessions[id].phase.Idle?
    requires ByOne(events, id) && Runs(d, events) && n <= |events|
    ensures Tracks(d, Exec(d, events[..n]), id)
  {
    if n == 0 {
      assert Versions([]) == {} && d.effects + [] == d.effects;
    } else {
      TracksAlong(d, events, id, n - 1);
      Forward(d, events, n - 1, n);
      GoodAlong(d, events, n - 1);
      StepTracks(d, Exec(d, events[..n - 1]), events[n - 1]);
    }
  }

  predicate Succeeds(d: Database, id: SessionId) {
    id in d.sessions && d.sessions[id].phase == Done(true)
  }

  /** An idle session can return nil by itself exactly if its connection lives, its lock is free, and the
      registry takes all that is missing. */
  lemma CanFinishExactly(d: Database, id: SessionId)
    requires Good(d) && id in d.sessions && id !in d.commits && d.sessions[id].phase.Idle?
    ensures (exists events :: ByOne(events, id) && Runs(d, events) && Succeeds(Exec(d, events), id))
            <==> Startable(d, id) && Takes(d, id, MissingFor(d, id))
  {
    var todo := MissingFor(d, id);
    if Startable(d, id) && Takes(d, id, todo) {
      assert todo[..|todo|] == todo;
      Solo(d, id, |todo|, Finishes);
    }
    if events :| ByOne(events, id) && Runs(d, events) && Succeeds(Exec(d, events), id) {
      TracksAlong(d, events, id, |events|);
      assert events[..|events|] == events;
      assert todo[..|todo|] == todo;
    }
  }
}

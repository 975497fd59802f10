/** The serial execution behind serialisability, as a run: every run of sessions that share a lock has the
    same outcome as a run in which the sessions follow one another, each without interruption. */
module MigrationExecution {
  import opened Sql
  import opened MigrationVersion
  import opened MigrationPlan
  import opened MigrationSessions
  import opened MigrationSerial
  import opened MigrationSolo

  // ----- what the serial run needs to know about the interleaved one

  /** The sessions in `order` run one after the other, each without interruption. */
  ghost predicate InTurn(events: seq<Event>, order: seq<SessionId>)
    decreases |order|
  {
    if order == [] then events == []
    else exists n: nat ::
        n <= |events| && InTurn(events[..n], order[..|order| - 1]) && ByOne(events[n..], order[|order| - 1])
  }

  ghost function MissingAt(d: Database, i: nat): seq<Migration>
    requires i < |d.order| && d.order[i] in d.sessions
  {
    Missing(Versions(Serial(d, d.order[..i])), d.sessions[d.order[i]].plan)
  }

  /** A session that has returned nil committed all it found missing. */
  ghost predicate SharesComplete(d: Database)
    requires OrderSound(d)
  {
    forall i | 0 <= i < |d.order| && Succeeds(d, d.order[i]) :: CommitsOf(d, d.order[i]) >= |MissingAt(d, i)|
  }

  /** An event changes neither the plans and commits of the sessions before the last one, nor what they found. */
  lemma EarlierStay(d: Database, e: Event, i: nat)
    requires Serialised(d) && Enabled(d, e) && i < |d.order|
    ensures d.order <= Next(d, e).order
    ensures OrderSound(Next(d, e)) && MissingAt(Next(d, e), i) == MissingAt(d, i)
    ensures Next(d, e).order[..i] == d.order[..i]
  {
    PlansStay(d, e);
    OrderSoundKept(d, e);
    var d' := Next(d, e);
    assert d'.order[..i] == d.order[..i];
    if e.action.Commit? {
      assert Inside(d.sessions[e.session]);
      assert forall j | 0 <= j < i :: d.order[j] != e.session;
    }
    SerialDepends(d, d', d.order[..i]);
  }

  lemma SharesCompleteKept(d: Database, e: Event)
    requires Serialised(d) && SharesComplete(d) && Enabled(d, e)
    ensures OrderSound(Next(d, e)) && SharesComplete(Next(d, e))
  {
    var d' := Next(d, e);
    OrderSoundKept(d, e);
    PlansStay(d, e);
    forall i | 0 <= i < |d'.order| && Succeeds(d', d'.order[i])
      ensures CommitsOf(d', d'.order[i]) >= |MissingAt(d', i)|
    {
      assert i < |d.order|;
      EarlierStay(d, e, i);
      SuccessIsComplete(d, e, i);
    }
  }

  lemma SuccessIsComplete(d: Database, e: Event, i: nat)
    requires OrderSound(d) && InsideIsLast(d) && SharesComplete(d) && Enabled(d, e) && i < |d.order|
    requires Succeeds(Next(d, e), d.order[i])
    ensures CommitsOf(Next(d, e), d.order[i]) >= |MissingAt(d, i)|
  {
    if d.order[i] == e.session && e.action.Unlock? {
      UnlockIsComplete(d, e, i);
    } else {
      CommitsGrow(d, e, d.order[i]);
      assert Succeeds(d, d.order[i]);
    }
  }

  lemma CommitsGrow(d: Database, e: Event, id: SessionId)
    requires Enabled(d, e)
    ensures CommitsOf(Next(d, e), id) >= CommitsOf(d, id)
    ensures Succeeds(Next(d, e), id) && !(id == e.session && e.action.Unlock?) ==> Succeeds(d, id)
  {
  }

  lemma UnlockIsComplete(d: Database, e: Event, i: nat)
    requires OrderSound(d) && InsideIsLast(d) && Enabled(d, e) && e.action.Unlock? && i < |d.order|
    requires d.order[i] == e.session && Succeeds(Next(d, e), e.session)
    ensures CommitsOf(Next(d, e), e.session) >= |MissingAt(d, i)|
  {
    assert Inside(d.sessions[e.session]);
    assert i == |d.order| - 1;
    CommitsGrow(d, e, e.session);
  }

  /** Plans and locks are fixed, and no connection comes back to life. */
  ghost predicate SameSessions(start: Database, d: Database) {
    && d.base == start.base && d.sessions.Keys == start.sessions.Keys
    && (forall id | id in d.sessions ::
          d.sessions[id].plan == start.sessions[id].plan && d.sessions[id].lock == start.sessions[id].lock)
    && (forall id | id in d.sessions && d.sessions[id].alive :: start.sessions[id].alive)
  }

  /** The sessions that have obtained the lock are those listed, and were alive to begin with. */
  ghost predicate Ordered(start: Database, d: Database) {
    && (forall id | id in d.order :: id in start.sessions && start.sessions[id].alive)
    && (forall id | id in d.sessions && !d.sessions[id].phase.Idle? && d.sessions[id].phase != Done(false) ::
          id in d.order)
  }

  /** What the interleaved run has led to, as far as the serial run depends on it. */
  ghost predicate Led(start: Database, d: Database) {
    Serialised(d) && RecordsEffects(d) && SharesComplete(d) && SameSessions(start, d) && Ordered(start, d)
  }

  lemma OrderedOn(start: Database, d: Database, e: Event)
    requires SameSessions(start, d) && Ordered(start, d) && Enabled(d, e)
    ensures SameSessions(start, Next(d, e)) && Ordered(start, Next(d, e))
  {
    PlansStay(d, e);
  }

  lemma LedOn(start: Database, d: Database, e: Event)
    requires Led(start, d) && Enabled(d, e) && Serialised(Next(d, e)) && RecordsEffects(Next(d, e))
    ensures Led(start, Next(d, e))
  {
    SharesCompleteKept(d, e);
    OrderedOn(start, d, e);
  }

  lemma {:induction false} RunsLead(start: Database, events: seq<Event>, lock: LockId, n: nat)
    requires Initial(start) && OneLock(start, lock) && Runs(start, events) && n <= |events|
    ensures Led(start, Exec(start, events[..n]))
  {
    RunsSerialise(start, events, lock, n);
    if n == 0 {
    } else {
      RunsLead(start, events, lock, n - 1);
      Forward(start, events, n - 1, n);
      LedOn(start, Exec(start, events[..n - 1]), events[n - 1]);
    }
  }

  lemma {:induction false} SerialGrows(d: Database, order: seq<SessionId>, i: nat)
    requires i <= |order|
    ensures Serial(d, order[..i]) <= Serial(d, order)
  {
    if i < |order| {
      SerialGrows(d, order[..|order| - 1], i);
      assert order[..|order| - 1][..i] == order[..i];
    } else {
      assert order[..i] == order;
    }
  }

  // ----- building the serial run

  /** The serial run of the first `i` sessions has led to `now`. */
  ghost predicate SerialState(start: Database, d: Database, now: Database, i: nat)
    requires i <= |d.order|
  {
    && Good(now)
    && now.sessions.Keys == start.sessions.Keys && now.holders == map[]
    && now.order == d.order[..i] && now.effects == Serial(d, d.order[..i])
    && TurnsDone(d, now, i) && OthersWait(start, d, now, i)
  }

  ghost predicate TurnsDone(d: Database, now: Database, i: nat)
    requires i <= |d.order|
  {
    forall j | 0 <= j < i ::
      d.order[j] in now.sessions && now.sessions[d.order[j]].phase == Done(Succeeds(d, d.order[j]))
  }

  ghost predicate OthersWait(start: Database, d: Database, now: Database, i: nat)
    requires i <= |d.order|
  {
    forall id | id in now.sessions && id !in d.order[..i] ::
      id in start.sessions && now.sessions[id] == start.sessions[id] && id !in now.commits
  }

  /** How many migrations the session number `i` commits. */
  ghost function Taken(d: Database, i: nat): nat
    requires i < |d.order| && d.order[i] in d.sessions
  {
    Least(CommitsOf(d, d.order[i]), |MissingAt(d, i)|)
  }

  /** Between turns, every session is idle or done, so no transaction is open. */
  lemma NobodyInserts(start: Database, d: Database, now: Database, i: nat, id: SessionId, v: UInt64)
    requires Initial(start) && Led(start, d) && i <= |d.order| && SerialState(start, d, now, i)
    ensures !Contended(now, id, v)
  {
    forall other | other in now.sessions ensures Inserting(now, other).None? {
      if other in d.order[..i] {
        var j :| 0 <= j < i && d.order[..i][j] == other;
        assert now.sessions[d.order[j]].phase.Done?;
      }
    }
  }

  lemma CanStartNext(start: Database, d: Database, now: Database, i: nat)
    requires Initial(start) && OrderSound(d) && SameSessions(start, d) && Ordered(start, d)
    requires i < |d.order| && SerialState(start, d, now, i)
    ensures CanStart(now, d.order[i]) && MissingFor(now, d.order[i]) == MissingAt(d, i)
  {
    var id := d.order[i];
    assert id in d.order && id !in d.order[..i];
  }

  lemma NextShare(d: Database, i: nat)
    requires i < |d.order| && d.order[i] in d.sessions
    ensures Serial(d, d.order[..i + 1]) == Serial(d, d.order[..i]) + MissingAt(d, i)[..Taken(d, i)]
    ensures Serial(d, d.order[..i + 1]) <= Serial(d, d.order)
  {
    assert d.order[..i + 1][..i] == d.order[..i];
    SerialGrows(d, d.order, i + 1);
  }

  /** The registry takes the share of the next session. */
  lemma ShareIsTaken(start: Database, d: Database, now: Database, i: nat)
    requires Initial(start) && Led(start, d) && i < |d.order| && SerialState(start, d, now, i)
    ensures var id := d.order[i];
            && CanStart(now, id) && MissingFor(now, id) == MissingAt(d, i)
            && Takes(now, id, MissingAt(d, i)[..Taken(d, i)])
            && Serial(d, d.order[..i + 1]) == now.effects + MissingAt(d, i)[..Taken(d, i)]
  {
    var id, share := d.order[i], MissingAt(d, i)[..Taken(d, i)];
    CanStartNext(start, d, now, i);
    NextShare(d, i);
    LaterIsRecordable(d.registry, d.effects, now.registry, now.effects, share);
    forall j | 0 <= j < |share| ensures !Contended(now, id, share[j].version) {
      NobodyInserts(start, d, now, i, id, share[j].version);
    }
  }

  lemma TurnsGoOn(start: Database, d: Database, now: Database, after: Database, i: nat, k: nat, exit: Exit)
    requires OrderSound(d) && i < |d.order| && TurnsDone(d, now, i) && OthersWait(start, d, now, i)
    requires d.order[i] in now.sessions && exit.Finishes? == Succeeds(d, d.order[i])
    requires SoloResult(now, after, d.order[i], k, exit)
    ensures TurnsDone(d, after, i + 1) && OthersWait(start, d, after, i + 1)
  {
    var id := d.order[i];
    assert d.order[..i + 1] == d.order[..i] + [id];
    forall j | 0 <= j < i
      ensures d.order[j] in after.sessions && after.sessions[d.order[j]].phase == Done(Succeeds(d, d.order[j]))
    {
      assert d.order[j] != id;
    }
    forall other | other in after.sessions && other !in d.order[..i + 1]
      ensures other in start.sessions && after.sessions[other] == start.sessions[other] && other !in after.commits
    {
      assert other !in d.order[..i];
    }
  }

  lemma NextState(start: Database, d: Database, now: Database, after: Database, i: nat, k: nat, exit: Exit)
    requires OrderSound(d) && i < |d.order| && SerialState(start, d, now, i)
    requires d.order[i] in now.sessions && exit.Finishes? == Succeeds(d, d.order[i])
    requires Good(after) && SoloResult(now, after, d.order[i], k, exit)
    requires Serial(d, d.order[..i + 1]) == now.effects + MissingFor(now, d.order[i])[..k]
    ensures SerialState(start, d, after, i + 1)
  {
    TurnsGoOn(start, d, now, after, i, k, exit);
    assert d.order[..i + 1] == d.order[..i] + [d.order[i]];
  }

  /** The next session's turn. */
  lemma OneTurn(start: Database, d: Database, now: Database, i: nat) returns (turn: seq<Event>)
    requires Initial(start) && Led(start, d) && i < |d.order| && SerialState(start, d, now, i)
    ensures Runs(now, turn) && ByOne(turn, d.order[i])
    ensures SerialState(start, d, Exec(now, turn), i + 1)
  {
    var id, k := d.order[i], Taken(d, i);
    var exit := if Succeeds(d, id) then Finishes else GivesUp;
    ShareIsTaken(start, d, now, i);
    Solo(now, id, k, exit);
    turn := SoloEvents(id, k, exit);
    NextState(start, d, now, Exec(now, turn), i, k, exit);
  }

  lemma SerialStart(start: Database, d: Database)
    requires Initial(start) && d.base == start.base
    ensures SerialState(start, d, start, 0)
  {
    assert d.order[..0] == [];
  }

  lemma InTurnMore(a: seq<Event>, b: seq<Event>, order: seq<SessionId>, i: nat)
    requires i < |order| && InTurn(a, order[..i]) && ByOne(b, order[i])
    ensures InTurn(a + b, order[..i + 1])
  {
    assert (a + b)[..|a|] == a && (a + b)[|a|..] == b;
    assert order[..i + 1][..i] == order[..i];
  }

  lemma {:induction false} SerialRun(start: Database, d: Database, i: nat) returns (events: seq<Event>)
    requires Initial(start) && Led(start, d) && i <= |d.order|
    ensures Runs(start, events) && InTurn(events, d.order[..i])
    ensures SerialState(start, d, Exec(start, events), i)
  {
    if i == 0 {
      events := [];
      SerialStart(start, d);
    } else {
      var before := SerialRun(start, d, i - 1);
      var turn := OneTurn(start, d, Exec(start, before), i - 1);
      RunsJoin(start, before, turn);
      events := before + turn;
      InTurnMore(before, turn, d.order, i - 1);
    }
  }

  /** The same registry and effects, the lock obtained in the same order, and the same sessions successful. */
  ghost predicate SameEnd(now: Database, d: Database) {
    && now.registry == d.registry && now.effects == d.effects && now.order == d.order
    && forall id :: Succeeds(now, id) <==> Succeeds(d, id)
  }

  /** Serialisability in full: for every run of sessions that share a lock there is a run of the same sessions
      in which they follow one another in the order they obtained the lock, each without interruption. It
      leaves the same registry and the same effects, and in it the same sessions return nil. */
  lemma SerialExecution(start: Database, events: seq<Event>, lock: LockId) returns (serial: seq<Event>)
    requires Initial(start) && OneLock(start, lock) && Runs(start, events)
    ensures Runs(start, serial) && InTurn(serial, Exec(start, events).order)
    ensures SameEnd(Exec(start, serial), Exec(start, events))
  {
    var d := Exec(start, events);
    RunsLead(start, events, lock, |events|);
    assert events[..|events|] == events;
    serial := SerialOf(start, d);
  }

  lemma SerialOf(start: Database, d: Database) returns (serial: seq<Event>)
    requires Initial(start) && Led(start, d)
    ensures Runs(start, serial) && InTurn(serial, d.order)
    ensures SameEnd(Exec(start, serial), d)
  {
    serial := SerialRun(start, d, |d.order|);
    assert d.order[..|d.order|] == d.order;
    SameOutcome(start, d, Exec(start, serial));
  }

  lemma SameOutcome(start: Database, d: Database, now: Database)
    requires Initial(start) && Ordered(start, d) && RecordsEffects(d) && d.effects == Serial(d, d.order)
    requires SerialState(start, d, now, |d.order|)
    ensures SameEnd(now, d)
  {
    assert d.order[..|d.order|] == d.order;
    RecordsUnique(now.registry, d.registry, d.effects);
    SameSucceed(start, d, now);
  }

  lemma SameSucceed(start: Database, d: Database, now: Database)
    requires Initial(start) && Ordered(start, d) && TurnsDone(d, now, |d.order|) && OthersWait(start, d, now, |d.order|)
    ensures forall id :: Succeeds(now, id) <==> Succeeds(d, id)
  {
    assert d.order[..|d.order|] == d.order;
    forall id ensures Succeeds(now, id) <==> Succeeds(d, id) {
      if id in d.order {
        var i :| 0 <= i < |d.order| && d.order[i] == id;
        assert now.sessions[d.order[i]].phase == Done(Succeeds(d, d.order[i]));
      }
    }
  }
}

/** What the calls of one migration session amount to: a reference semantics of `RunLocked`, `releaseLock`,
    `Apply` and `Applied` over a database, a connection and the way each coming call ends, for any client;
    and what holds of it. */
module MigrationCalls {
  import opened Sql
  import opened Ordering
  import opened MigrationVersion
  import opened MigrationPlan

  // ----- calls and how they end

  /** An error can hide that the server has done what was asked, and can have cost the connection. */
  datatype Fault = Fine | Error(done: bool, lost: bool) {
    predicate Carried() { Fine? || done }
    predicate Loses() { Error? && lost }
  }

  /** How the call number `n` from now ends; calls beyond the list succeed. */
  function Call(faults: seq<Fault>, n: nat): Fault {
    if n < |faults| then faults[n] else Fine
  }

  function Rest(faults: seq<Fault>, n: nat): seq<Fault> {
    if n <= |faults| then faults[n..] else []
  }

  /** The next `n` calls succeed. */
  predicate AllFine(faults: seq<Fault>, n: nat) {
    forall i | 0 <= i < n :: Call(faults, i).Fine?
  }

  lemma RestCalls(faults: seq<Fault>, n: nat, i: nat)
    ensures Call(Rest(faults, n), i) == Call(faults, n + i)
    ensures Rest(Rest(faults, n), i) == Rest(faults, n + i)
  {
  }

  lemma FineParts(faults: seq<Fault>, n: nat, k: nat)
    ensures AllFine(faults, n + k) <==> AllFine(faults, n) && AllFine(Rest(faults, n), k)
  {
    if AllFine(faults, n + k) {
      forall i | 0 <= i < k ensures Call(Rest(faults, n), i).Fine? {
        RestCalls(faults, n, i);
        assert Call(faults, n + i).Fine?;
      }
    }
    if AllFine(faults, n) && AllFine(Rest(faults, n), k) {
      forall i | 0 <= i < n + k ensures Call(faults, i).Fine? {
        if i >= n {
          RestCalls(faults, n, i - n);
          assert Call(Rest(faults, n), i - n).Fine?;
        }
      }
    }
  }

  lemma FirstFour(faults: seq<Fault>)
    ensures Call(Rest(faults, 1), 0) == Call(faults, 1)
    ensures Call(Rest(faults, 1), 1) == Call(faults, 2)
    ensures Call(Rest(faults, 1), 2) == Call(faults, 3)
    ensures Rest(Rest(faults, 1), 3) == Rest(faults, 4)
    ensures AllFine(faults, 3) <==> Call(faults, 0).Fine? && Call(faults, 1).Fine? && Call(faults, 2).Fine?
    ensures AllFine(faults, 4) <==> AllFine(faults, 3) && Call(faults, 3).Fine?
  {
    RestCalls(faults, 1, 0);
    RestCalls(faults, 1, 1);
    RestCalls(faults, 1, 2);
    RestCalls(faults, 1, 3);
  }

  // ----- the database and the connection

  /** An open transaction: scripts run and rows inserted but not committed. */
  datatype Transaction = Transaction(effects: seq<Migration>, rows: seq<Migration>)

  /** The committed registry and effects of scripts; how often this session holds the advisory lock (section
      13.3.5 of the PostgreSQL manual); whether the connection is open; its open transaction; and how the
      coming calls end. */
  datatype Link = Link(
    registry: map<UInt64, Migration>,
    effects: seq<Migration>,
    locks: nat,
    open: bool,
    transaction: Option<Transaction>,
    faults: seq<Fault>)

  /** Nothing is under way: no transaction is open, and a closed connection holds no lock. */
  ghost predicate Settled(s: Link) {
    Records(s.registry, s.effects) && s.transaction.None? && (!s.open ==> s.locks == 0)
  }

  function Taken(s: Link, n: nat): Link {
    s.(faults := Rest(s.faults, n))
  }

  /** After `n` calls, of which one closed the connection: locks and transaction end with the session. */
  function Gone(s: Link, n: nat): Link {
    s.(faults := Rest(s.faults, n), open := false, locks := 0, transaction := None)
  }

  function After(s: Link, n: nat, open: bool): Link {
    if open then Taken(s, n) else Gone(s, n)
  }

  /** Whether the connection outlives the next call. */
  predicate Survives(s: Link) {
    s.open && !Call(s.faults, 0).Loses()
  }

  /** BEGIN inside a transaction only warns. */
  function Begun(s: Link): Link {
    if s.transaction.Some? then s else s.(transaction := Some(Transaction([], [])))
  }

  function WithScript(s: Link, m: Migration): Link
    requires s.transaction.Some?
  {
    s.(transaction := Some(s.transaction.value.(effects := s.transaction.value.effects + [m])))
  }

  function WithRow(s: Link, m: Migration): Link
    requires s.transaction.Some?
  {
    s.(transaction := Some(s.transaction.value.(rows := s.transaction.value.rows + [m])))
  }

  /** Without the open transaction, which comes to nothing. */
  function Undone(s: Link): Link {
    s.(transaction := None)
  }

  datatype Reply = Reply(ok: bool, state: Link)

  /** `n` calls that only read, up to the first error. */
  function Calling(s: Link, n: nat): Reply
    decreases n
  {
    if n == 0 then Reply(true, s)
    else if !s.open || !Call(s.faults, 0).Fine? then Reply(false, After(s, 1, Survives(s)))
    else Calling(Taken(s, 1), n - 1)
  }

  lemma {:induction false} CallingExact(s: Link, n: nat)
    ensures Calling(s, n).ok <==> n == 0 || (s.open && AllFine(s.faults, n))
    ensures Calling(s, n).ok ==> Calling(s, n).state == Taken(s, n)
    ensures Settled(s) ==> Settled(Calling(s, n).state)
    ensures var s' := Calling(s, n).state;
            && s'.registry == s.registry && s'.effects == s.effects
            && (s'.open ==> s.open && s'.locks == s.locks && s'.transaction == s.transaction)
    decreases n
  {
    if n == 0 {
    } else {
      RestCalls(s.faults, 1, n - 1);
      CallingExact(Taken(s, 1), n - 1);
      FineParts(s.faults, 1, n - 1);
      assert AllFine(s.faults, 1) <==> Call(s.faults, 0).Fine?;
    }
  }

  // ----- the session's operations

  predicate Below(a: UInt64, b: UInt64) {
    a < b
  }

  lemma BelowIsTotal()
    ensures StrictTotal(Below)
  {
  }

  ghost function InVersionOrder(registry: map<UInt64, Migration>): (order: seq<UInt64>)
    ensures |order| == |registry|
  {
    BelowIsTotal();
    Arrange(Below, registry.Keys)
  }

  lemma InOrder(registry: map<UInt64, Migration>, order: seq<UInt64>)
    requires order == InVersionOrder(registry)
    ensures Ascending(Below, order)
    ensures forall i | 0 <= i < |order| :: order[i] in registry
    ensures forall v | v in registry :: v in order
  {
    BelowIsTotal();
    assert forall i | 0 <= i < |order| :: order[i] in Elements(order);
    assert forall v | v in registry :: v in Elements(order);
  }

  /** The recorded entries in ascending order of version. */
  ghost function Entries(registry: map<UInt64, Migration>): (rows: seq<(UInt64, Migration)>)
    ensures |rows| == |registry|
  {
    var order := InVersionOrder(registry);
    InOrder(registry, order);
    seq(|order|, i requires 0 <= i < |order| => (order[i], registry[order[i]]))
  }

  lemma EntriesExact(registry: map<UInt64, Migration>)
    ensures var rows := Entries(registry);
            && (forall i, j | 0 <= i < j < |rows| :: rows[i].0 < rows[j].0)
            && (forall v: UInt64, m :: (v, m) in rows <==> v in registry && registry[v] == m)
  {
    var order, rows := InVersionOrder(registry), Entries(registry);
    InOrder(registry, order);
    assert forall i, j | 0 <= i < j < |order| :: Below(order[i], order[j]);
    forall v: UInt64, m | v in registry && registry[v] == m ensures (v, m) in rows {
      var k :| 0 <= k < |order| && order[k] == v;
      assert rows[k] == (v, m);
    }
  }

  /** `Applied`: the query, one call for every row, and the final check of the cursor. */
  function Reading(s: Link): Reply {
    Calling(s, |s.registry| + 2)
  }

  lemma ReadingExact(s: Link)
    requires Settled(s)
    ensures Settled(Reading(s).state)
    ensures Reading(s).ok <==> s.open && AllFine(s.faults, |s.registry| + 2)
    ensures var queried := Calling(s, 1);
            Reading(s) == if queried.ok then Calling(queried.state, |s.registry| + 1) else queried
  {
    CallingExact(s, |s.registry| + 2);
  }

  /** Call `i` failed inside a transaction, which is then rolled back; the driver closes a connection on
      which the rollback fails. */
  function RolledBack(s: Link, i: nat): Reply {
    Reply(false, After(s, i + 2, !Call(s.faults, i).Loses() && Call(s.faults, i + 1).Fine?))
  }

  /** Script, insert and commit of `Apply`, in a transaction that has just begun. */
  function Transacting(s: Link, m: Migration): Reply {
    if !Call(s.faults, 0).Fine? then RolledBack(s, 0)
    else if !Call(s.faults, 1).Fine? || m.version in s.registry || !RegistryChecks(m) then RolledBack(s, 1)
    else
      var s' := if Call(s.faults, 2).Carried()
                then s.(registry := s.registry[m.version := m], effects := s.effects + [m]) else s;
      Reply(Call(s.faults, 2).Fine?, After(s', 3, !Call(s.faults, 2).Loses()))
  }

  /** `Apply`. The driver closes a connection on which the begin fails. */
  function Applying(s: Link, m: Migration): Reply {
    if !Acceptable(m) then Reply(false, s)
    else if !s.open || !Call(s.faults, 0).Fine? then Reply(false, Gone(s, 1))
    else Transacting(Taken(s, 1), m)
  }

  /** `releaseLock`: the unlock, and the close if the lock might still be held. */
  function Releasing(s: Link): Reply {
    if s.open && s.locks > 0 && Call(s.faults, 0).Fine? then Reply(true, Taken(s, 1).(locks := s.locks - 1))
    else Reply(false, Gone(s, 2))
  }

  // ----- clients

  /** What a client does with a session: it returns, reads the registry or applies a migration, and goes on
      as it likes with what it learns. */
  datatype Work =
    | Return(ok: bool)
    | ReadThen(read: Option<seq<(UInt64, Migration)>> -> Work)
    | ApplyThen(migration: Migration, applied: bool -> Work)

  /** The client at work; after `limit` requests it gives up. Every client that comes to an end does so
      within some limit. */
  ghost function Performing(work: Work, limit: nat, s: Link): Reply
    decreases limit
  {
    if work.Return? then Reply(work.ok, s)
    else if limit == 0 then Reply(false, s)
    else if work.ReadThen? then
      var r := Reading(s);
      Performing(work.read(if r.ok then Some(Entries(s.registry)) else None), limit - 1, r.state)
    else
      var r := Applying(s, work.migration);
      Performing(work.applied(r.ok), limit - 1, r.state)
  }

  /** The body that runs with the release deferred: the registry, then the work. */
  ghost function Creating(work: Work, limit: nat, s: Link): Reply {
    var created := Calling(s, 1);
    if created.ok then Performing(work, limit, created.state) else created
  }

  /** `RunLocked`: the lock, then the registry, then the work, and in every case the release. */
  ghost function Running(work: Work, limit: nat, s: Link): Reply {
    var locked := Calling(s, 1);
    if !locked.ok then locked
    else
      var r := Creating(work, limit, locked.state.(locks := s.locks + 1));
      var released := Releasing(r.state);
      Reply(r.ok && released.ok, released.state)
  }

  // ----- what holds for every client

  /** What decides whether the first `j` migrations of a list, applied one after the other from call number
      `start` on, take effect: every call up to the last commit succeeds, and that commit is carried out. */
  predicate Lands(s: Link, start: nat, todo: seq<Migration>, j: nat)
    requires 1 <= j <= |todo|
  {
    && s.open && Recordable(s.registry.Keys, todo[..j])
    && AllFine(s.faults, start + 4 * j - 1) && Call(s.faults, start + 4 * j - 1).Carried()
  }

  /** Apply succeeds exactly if nothing is wrong with the migration and its four calls succeed; it takes
      effect exactly if its first three calls succeed and the commit is carried out; and its script and
      its row take effect together. */
  lemma ApplyExact(s: Link, m: Migration)
    requires Settled(s)
    ensures var r := Applying(s, m);
            && Settled(r.state)
            && (r.ok <==> s.open && Recordable(s.registry.Keys, [m]) && AllFine(s.faults, 4))
            && (r.ok ==> r.state == Taken(s, 4).(registry := r.state.registry, effects := r.state.effects))
            && (if Lands(s, 0, [m], 1)
                then r.state.effects == s.effects + [m] && r.state.registry == s.registry[m.version := m]
                else r.state.effects == s.effects && r.state.registry == s.registry)
            && (r.state.open ==> s.open && r.state.locks == s.locks)
  {
    FirstFour(s.faults);
    RecordableOne(s.registry.Keys, m);
    assert [m][..1] == [m];
    if m.version !in s.registry && Acceptable(m) && RegistryChecks(m) {
      RecordingKeeps(s.registry, s.effects, m);
    }
  }

  // ----- how long the connection lives

  /** None of the first `n` calls, as far as they are made, loses the connection. */
  predicate NoneLoses(faults: seq<Fault>, n: nat) {
    forall j: nat | j < n && AllFine(faults, j) :: !Call(faults, j).Loses()
  }

  /** Reading calls leave the connection open exactly if it was and no call that was made lost it. */
  lemma {:induction false} CallingLives(s: Link, n: nat)
    ensures Calling(s, n).state.open <==> s.open && NoneLoses(s.faults, n)
    decreases n
  {
    if n == 0 || !s.open {
    } else if Call(s.faults, 0).Fine? {
      var rest := n - 1;
      CallingLives(Taken(s, 1), rest);
      LosesLater(s.faults, rest, n);
    } else {
      LosesFirst(s.faults, n);
    }
  }

  lemma LosesFirst(faults: seq<Fault>, n: nat)
    requires n > 0 && !Call(faults, 0).Fine?
    ensures NoneLoses(faults, n) <==> !Call(faults, 0).Loses()
  {
    assert AllFine(faults, 0);
    forall j: nat | 0 < j < n ensures !AllFine(faults, j) {
      assert !Call(faults, 0).Fine?;
    }
  }

  lemma LosesLater(faults: seq<Fault>, n: nat, m: nat)
    requires m == n + 1 && Call(faults, 0).Fine?
    ensures NoneLoses(faults, m) <==> NoneLoses(Rest(faults, 1), n)
  {
    assert AllFine(faults, 1);
    forall j: nat | j < n
      ensures AllFine(faults, 1 + j) <==> AllFine(Rest(faults, 1), j)
      ensures Call(faults, 1 + j) == Call(Rest(faults, 1), j)
    {
      RestCalls(faults, 1, j);
      FineParts(faults, 1, j);
    }
    if NoneLoses(faults, m) {
      forall j: nat | j < n && AllFine(Rest(faults, 1), j) ensures !Call(Rest(faults, 1), j).Loses() {
        assert AllFine(faults, 1 + j) && !Call(faults, 1 + j).Loses();
      }
    }
    if NoneLoses(Rest(faults, 1), n) {
      forall j: nat | j < m && AllFine(faults, j) ensures !Call(faults, j).Loses() {
        if j > 0 {
          var i := j - 1;
          assert 1 + i == j && AllFine(Rest(faults, 1), i);
        }
      }
    }
  }

  /** What Apply makes of the connection, and of the calls. A migration that is not acceptable costs no call. If
      the begin fails, the connection is gone. A script that fails is rolled back by the third call, an insert that
      fails or is refused by the fourth, and the connection stays open exactly if the failing call did not lose it
      and the rollback succeeds. Otherwise the fourth call is the commit, and must not lose it. */
  lemma ApplyLives(s: Link, m: Migration)
    ensures var s', begin, script, third, fourth :=
              Applying(s, m).state, Call(s.faults, 0), Call(s.faults, 1), Call(s.faults, 2), Call(s.faults, 3);
            if !Acceptable(m) then s'.open == s.open && s'.faults == s.faults
            else if !s.open || !begin.Fine? then !s'.open && s'.faults == Rest(s.faults, 1)
            else if !script.Fine? then
              (s'.open <==> !script.Loses() && third.Fine?) && s'.faults == Rest(s.faults, 3)
            else if !third.Fine? || m.version in s.registry || !RegistryChecks(m) then
              (s'.open <==> !third.Loses() && fourth.Fine?) && s'.faults == Rest(s.faults, 4)
            else (s'.open <==> !fourth.Loses()) && s'.faults == Rest(s.faults, 4)
  {
    FirstFour(s.faults);
    RestCalls(s.faults, 1, 2);
  }

  /** No transaction is left open, nothing is taken back, and the lock is not touched. */
  ghost predicate Kept(s: Link, s': Link) {
    Settled(s') && s.effects <= s'.effects && (s'.open ==> s.open && s'.locks == s.locks)
  }

  lemma KeptOn(s: Link, s': Link, s'': Link)
    requires Kept(s, s') && Kept(s', s'')
    ensures Kept(s, s'')
  {
  }

  lemma ReadingKeeps(s: Link, r: Reply, n: nat)
    requires Settled(s) && n == |s.registry| + 2 && r == Calling(s, n)
    ensures Kept(s, r.state)
  {
    CallingExact(s, n);
  }

  lemma ApplyingKeeps(s: Link, m: Migration, r: Reply)
    requires Settled(s) && r == Applying(s, m)
    ensures Kept(s, r.state)
  {
    ApplyExact(s, m);
    assert r.state.effects == s.effects || r.state.effects == s.effects + [m];
  }

  /** One request of the client, and what it goes on with. */
  lemma FirstRequest(work: Work, limit: nat, s: Link, left: nat) returns (s': Link, next: Work)
    requires limit == left + 1 && !work.Return? && Settled(s)
    ensures Kept(s, s') && Performing(work, limit, s) == Performing(next, left, s')
  {
    if work.ReadThen? {
      var r := Reading(s);
      ReadingKeeps(s, r, |s.registry| + 2);
      s', next := r.state, work.read(if r.ok then Some(Entries(s.registry)) else None);
    } else {
      var r := Applying(s, work.migration);
      ApplyingKeeps(s, work.migration, r);
      s', next := r.state, work.applied(r.ok);
    }
  }

  /** Whatever a client does, it leaves no transaction open, takes nothing back, and does not touch the lock. */
  lemma {:induction false} WorkKeeps(work: Work, limit: nat, s: Link)
    requires Settled(s)
    ensures Kept(s, Performing(work, limit, s).state)
    decreases limit
  {
    if limit == 0 || work.Return? {
    } else {
      var left := limit - 1;
      var s', next := FirstRequest(work, limit, s, left);
      WorkKeeps(next, left, s');
      KeptOn(s, s', Performing(next, left, s').state);
    }
  }

  /** The first two calls of `RunLocked`: lock and registry creation. */
  lemma TwoCalls(s: Link)
    ensures var s1 := Taken(s, 1).(locks := s.locks + 1);
            && (Calling(s, 1).ok && Calling(s1, 1).ok <==> s.open && AllFine(s.faults, 2))
            && (s.open && AllFine(s.faults, 2) ==> Calling(s1, 1).state == Taken(s, 2).(locks := s.locks + 1))
  {
    CallingExact(s, 1);
    CallingExact(Taken(s, 1).(locks := s.locks + 1), 1);
    RestCalls(s.faults, 1, 1);
    FineParts(s.faults, 1, 1);
  }

  lemma RunsThrough(work: Work, limit: nat, s: Link)
    requires s.open && AllFine(s.faults, 2)
    ensures var w := Performing(work, limit, Taken(s, 2).(locks := s.locks + 1));
            Running(work, limit, s) == Reply(w.ok && Releasing(w.state).ok, Releasing(w.state).state)
  {
    TwoCalls(s);
    CallingExact(s, 1);
  }

  lemma NotThrough(work: Work, limit: nat, s: Link)
    requires !(s.open && AllFine(s.faults, 2))
    ensures var r := Running(work, limit, s);
            && !r.ok && r.state.effects == s.effects && r.state.registry == s.registry
            && (r.state.open ==> s.open && r.state.locks == s.locks)
            && (Settled(s) ==> Settled(r.state))
  {
    TwoCalls(s);
    CallingExact(s, 1);
    CallingExact(Taken(s, 1).(locks := s.locks + 1), 1);
  }

  /** For every client and every failure pattern: no transaction stays open, a lock obtained is given back
      or is gone with the connection, and a nil result means that the client's work returned nil. */
  lemma RunReleases(work: Work, limit: nat, s: Link)
    requires Settled(s)
    ensures var r := Running(work, limit, s);
            && Settled(r.state) && s.effects <= r.state.effects
            && (r.state.open ==> s.open && r.state.locks == s.locks)
            && (r.ok ==> s.open && r.state.open && AllFine(s.faults, 2)
                         && Performing(work, limit, Taken(s, 2).(locks := s.locks + 1)).ok)
  {
    if s.open && AllFine(s.faults, 2) {
      RunsThrough(work, limit, s);
      WorkKeeps(work, limit, Taken(s, 2).(locks := s.locks + 1));
    } else {
      NotThrough(work, limit, s);
    }
  }

  // ----- what holds for the runner: read the registry, then apply what is missing

  function ApplyAll(todo: seq<Migration>): Work {
    if todo == [] then Return(true)
    else ApplyThen(todo[0], (applied: bool) => if applied then ApplyAll(todo[1..]) else Return(false))
  }

  function VersionsRead(rows: seq<(UInt64, Migration)>): set<UInt64> {
    set row | row in rows :: row.0
  }

  /** The work of a migration runner: what the plan has and the registry lacks, in order, until an error. */
  function ReadThenApply(plan: seq<Migration>): Work {
    ReadThen((rows: Option<seq<(UInt64, Migration)>>) =>
               if rows.None? then Return(false) else ApplyAll(Missing(VersionsRead(rows.value), plan)))
  }

  lemma ReadVersions(registry: map<UInt64, Migration>)
    ensures VersionsRead(Entries(registry)) == registry.Keys
  {
    EntriesExact(registry);
    forall v | v in registry ensures v in VersionsRead(Entries(registry)) {
      assert (v, registry[v]) in Entries(registry);
    }
  }

  lemma LandsNext(s: Link, s': Link, todo: seq<Migration>, j: nat)
    requires 1 <= j < |todo|
    requires s.open && s'.open && AllFine(s.faults, 4) && Recordable(s.registry.Keys, [todo[0]])
    requires s'.faults == Rest(s.faults, 4) && s'.registry.Keys == s.registry.Keys + {todo[0].version}
    ensures Lands(s', 0, todo[1..], j) <==> Lands(s, 0, todo, j + 1)
  {
    assert todo[..j + 1] == [todo[0]] + todo[1..][..j];
    RecordableParts(s.registry.Keys, todo[0], todo[1..][..j]);
    FineParts(s.faults, 4, 4 * j - 1);
    RestCalls(s.faults, 4, 4 * j - 1);
    assert 4 + (4 * j - 1) == 4 * (j + 1) - 1;
  }

  lemma LandsEarlier(s: Link, todo: seq<Migration>, j: nat)
    requires 2 <= j <= |todo| && Lands(s, 0, todo, j)
    ensures Recordable(s.registry.Keys, [todo[0]]) && AllFine(s.faults, 4)
  {
    assert todo[..j] == [todo[0]] + todo[1..j];
    RecordableParts(s.registry.Keys, todo[0], todo[1..j]);
  }

  lemma AllEarlier(s: Link, todo: seq<Migration>)
    requires todo != [] && Recordable(s.registry.Keys, todo) && AllFine(s.faults, 4 * |todo|)
    ensures Recordable(s.registry.Keys, [todo[0]]) && AllFine(s.faults, 4)
  {
    assert todo == [todo[0]] + todo[1..];
    RecordableParts(s.registry.Keys, todo[0], todo[1..]);
  }

  /** The result and the effects of applying a list: nil exactly if the whole list can be recorded and all
      its calls succeed; the first `k` take effect, where `Lands` decides how far that goes. */
  ghost predicate ListResult(s: Link, todo: seq<Migration>, r: Reply, k: nat) {
    && (r.ok <==> todo == [] || (s.open && Recordable(s.registry.Keys, todo) && AllFine(s.faults, 4 * |todo|)))
    && (r.ok ==> r.state.faults == Rest(s.faults, 4 * |todo|) && r.state.open == s.open
                 && r.state.locks == s.locks && k == |todo|)
    && k <= |todo| && r.state.effects == s.effects + todo[..k]
    && forall j | 1 <= j <= |todo| :: j <= k <==> Lands(s, 0, todo, j)
  }

  lemma StopsAtFirst(s: Link, todo: seq<Migration>) returns (k: nat)
    requires Settled(s) && todo != [] && !Applying(s, todo[0]).ok
    ensures ListResult(s, todo, Applying(s, todo[0]), k)
  {
    var m := todo[0];
    ApplyExact(s, m);
    assert todo[..1] == [m][..1] == [m];
    k := if Lands(s, 0, [m], 1) then 1 else 0;
    forall j | 1 <= j <= |todo| ensures j <= k <==> Lands(s, 0, todo, j) {
      if j >= 2 && Lands(s, 0, todo, j) {
        LandsEarlier(s, todo, j);
      }
    }
    if Recordable(s.registry.Keys, todo) && AllFine(s.faults, 4 * |todo|) {
      AllEarlier(s, todo);
    }
  }

  lemma LandsOn(s: Link, s': Link, todo: seq<Migration>, k: nat)
    requires todo != [] && s.open && s'.open && AllFine(s.faults, 4) && Recordable(s.registry.Keys, [todo[0]])
    requires s'.faults == Rest(s.faults, 4) && s'.registry.Keys == s.registry.Keys + {todo[0].version}
    requires forall j | 1 <= j < |todo| :: j <= k <==> Lands(s', 0, todo[1..], j)
    ensures forall j | 1 <= j <= |todo| :: j <= k + 1 <==> Lands(s, 0, todo, j)
  {
    forall j | 1 <= j <= |todo| ensures j <= k + 1 <==> Lands(s, 0, todo, j) {
      if j >= 2 {
        LandsNext(s, s', todo, j - 1);
      } else {
        assert todo[..1] == [todo[0]];
      }
    }
  }

  lemma GoesOn(s: Link, s': Link, todo: seq<Migration>, r: Reply, k: nat)
    requires todo != [] && s.open && AllFine(s.faults, 4) && Recordable(s.registry.Keys, [todo[0]])
    requires s' == Taken(s, 4).(registry := s.registry[todo[0].version := todo[0]], effects := s.effects + [todo[0]])
    requires ListResult(s', todo[1..], r, k)
    ensures ListResult(s, todo, r, k + 1)
  {
    var m, rest := todo[0], todo[1..];
    assert s'.registry.Keys == s.registry.Keys + {m.version};
    LandsOn(s, s', todo, k);
    assert todo == [m] + rest && todo[..k + 1] == [m] + rest[..k];
    assert s.effects + [m] + rest[..k] == s.effects + ([m] + rest[..k]);
    RecordableParts(s.registry.Keys, m, rest);
    FineParts(s.faults, 4, 4 * |rest|);
    RestCalls(s.faults, 4, 4 * |rest|);
  }

  lemma {:induction false} ApplyAllExact(todo: seq<Migration>, limit: nat, s: Link) returns (k: nat)
    requires Settled(s) && |todo| <= limit
    ensures ListResult(s, todo, Performing(ApplyAll(todo), limit, s), k)
    decreases |todo|
  {
    if todo == [] {
      k := 0;
    } else if !Applying(s, todo[0]).ok {
      k := StopsAtFirst(s, todo);
    } else {
      ApplyExact(s, todo[0]);
      k := ApplyAllExact(todo[1..], limit - 1, Applying(s, todo[0]).state);
      assert [todo[0]][..1] == [todo[0]];
      GoesOn(s, Applying(s, todo[0]).state, todo, Performing(ApplyAll(todo), limit, s), k);
      k := k + 1;
    }
  }

  lemma ReadThenApplyGoesOn(plan: seq<Migration>, limit: nat, s: Link, left: nat)
    requires limit == left + 1
    ensures var read := Reading(s);
            Performing(ReadThenApply(plan), limit, s)
            == if read.ok then Performing(ApplyAll(Missing(s.registry.Keys, plan)), left, read.state)
               else Reply(false, read.state)
  {
    ReadVersions(s.registry);
  }

  lemma WorkAfterRead(plan: seq<Migration>, limit: nat, s: Link, todo: seq<Migration>, read: Reply) returns (k: nat)
    requires Settled(read.state) && limit > |todo|
    requires todo == Missing(s.registry.Keys, plan) && read == Reading(s)
    ensures var r := Performing(ReadThenApply(plan), limit, s);
            if read.ok then ListResult(read.state, todo, r, k) else r == Reply(false, read.state) && k == 0
  {
    var left := limit - 1;
    ReadThenApplyGoesOn(plan, limit, s, left);
    k := 0;
    if read.ok {
      k := ApplyAllExact(todo, left, read.state);
    }
  }

  /** The runner's work on a session that holds the lock. */
  lemma WorkExact(plan: seq<Migration>, limit: nat, s: Link) returns (k: nat)
    requires Settled(s) && limit > |Missing(s.registry.Keys, plan)|
    ensures var todo, r := Missing(s.registry.Keys, plan), Performing(ReadThenApply(plan), limit, s);
            if s.open && AllFine(s.faults, |s.registry| + 2)
            then ListResult(Taken(s, |s.registry| + 2), todo, r, k)
            else !r.ok && r.state.effects == s.effects && k == 0
  {
    CallingExact(s, |s.registry| + 2);
    k := WorkAfterRead(plan, limit, s, Missing(s.registry.Keys, plan), Reading(s));
  }

  /** What a client's work amounts to within `RunLocked`, after lock and registry creation. */
  lemma RunsWork(work: Work, limit: nat, s: Link)
    requires Settled(s)
    ensures var s2, r := Taken(s, 2).(locks := s.locks + 1), Running(work, limit, s);
            if s.open && AllFine(s.faults, 2)
            then var w := Performing(work, limit, s2);
                 && (r.ok <==> w.ok && w.state.open && Call(w.state.faults, 0).Fine?)
                 && r.state.effects == w.state.effects && r.state.registry == w.state.registry
            else !r.ok && r.state.effects == s.effects && r.state.registry == s.registry
  {
    if s.open && AllFine(s.faults, 2) {
      RunsThrough(work, limit, s);
      WorkKeeps(work, limit, Taken(s, 2).(locks := s.locks + 1));
    } else {
      NotThrough(work, limit, s);
    }
  }

  lemma LandsShift(s: Link, start: nat, s': Link, todo: seq<Migration>, j: nat)
    requires 1 <= j <= |todo| && s.open && s'.open && s'.registry == s.registry
    requires AllFine(s.faults, start) && s'.faults == Rest(s.faults, start)
    ensures Lands(s', 0, todo, j) <==> Lands(s, start, todo, j)
  {
    FineParts(s.faults, start, 4 * j - 1);
    RestCalls(s.faults, start, 4 * j - 1);
  }

  lemma LandsAfter(s: Link, start: nat, s': Link, todo: seq<Migration>, k: nat)
    requires s'.open && s'.registry == s.registry && s'.faults == Rest(s.faults, start)
    requires if s.open && AllFine(s.faults, start)
             then forall j | 1 <= j <= |todo| :: j <= k <==> Lands(s', 0, todo, j)
             else k == 0
    ensures forall j | 1 <= j <= |todo| :: j <= k <==> Lands(s, start, todo, j)
  {
    forall j | 1 <= j <= |todo| ensures j <= k <==> Lands(s, start, todo, j) {
      if s.open && AllFine(s.faults, start) {
        LandsShift(s, start, s', todo, j);
      } else {
        FineParts(s.faults, start, 4 * j - 1);
      }
    }
  }

  /** Whether the first `j` of what is missing take effect when `RunLocked` starts in `s`: before the first
      migration come the lock, the registry, the query, and one call for every row and one to end the rows. */
  predicate RunLands(s: Link, todo: seq<Migration>, j: nat)
    requires 1 <= j <= |todo|
  {
    Lands(s, |s.registry| + 4, todo, j)
  }

  /** What the runner has done, and whether it returned nil, when its session started in `s`. */
  ghost predicate RunResult(s: Link, todo: seq<Migration>, r: Reply, k: nat) {
    && (r.ok <==> s.open && Recordable(s.registry.Keys, todo)
                  && AllFine(s.faults, |s.registry| + 4 * |todo| + 5))
    && k <= |todo| && r.state.effects == s.effects + todo[..k] && (r.ok ==> k == |todo|)
    && forall j | 1 <= j <= |todo| :: j <= k <==> RunLands(s, todo, j)
  }

  /** The calls of the runner: those before the first migration, the migrations', and the unlock. */
  lemma CallsInAll(faults: seq<Fault>, n: nat, m: nat)
    ensures Rest(Rest(faults, n), m) == Rest(faults, n + m)
    ensures AllFine(faults, n + m + 1) <==>
            AllFine(faults, n) && AllFine(Rest(faults, n), m) && Call(Rest(faults, n + m), 0).Fine?
  {
    RestCalls(faults, n, m);
    FineParts(faults, n, m);
    RestCalls(faults, n + m, 0);
    FineParts(faults, n + m, 1);
    assert AllFine(Rest(faults, n + m), 1) <==> Call(Rest(faults, n + m), 0).Fine?;
  }

  lemma AllTogether(s: Link, todo: seq<Migration>, w: Reply, r: Reply, k: nat)
    requires Settled(s)
    requires if s.open && AllFine(s.faults, |s.registry| + 4)
             then && ListResult(Taken(s, |s.registry| + 4).(locks := s.locks + 1), todo, w, k)
                  && (r.ok <==> w.ok && w.state.open && Call(w.state.faults, 0).Fine?)
                  && r.state.effects == w.state.effects
             else !r.ok && r.state.effects == s.effects && k == 0
    ensures RunResult(s, todo, r, k)
  {
    CallsInAll(s.faults, |s.registry| + 4, 4 * |todo|);
    LandsAfter(s, |s.registry| + 4, Taken(s, |s.registry| + 4).(locks := s.locks + 1, open := true), todo, k);
    if todo == [] {
      assert Recordable(s.registry.Keys, todo);
    }
  }

  /** The runner under `RunLocked`, for every failure pattern. It returns nil exactly if the connection is
      open, what is missing can be recorded, and all calls succeed: lock, registry, query, one for every
      row and one to end the rows, four for every missing migration, and unlock. And the migrations that
      take effect are the first of the missing ones, as far as `RunLands` reaches. */
  lemma RunExact(plan: seq<Migration>, limit: nat, s: Link) returns (k: nat)
    requires Settled(s) && limit > |Missing(s.registry.Keys, plan)|
    ensures RunResult(s, Missing(s.registry.Keys, plan), Running(ReadThenApply(plan), limit, s), k)
  {
    var todo, n := Missing(s.registry.Keys, plan), |s.registry|;
    var s2 := Taken(s, 2).(locks := s.locks + 1);
    var w := Performing(ReadThenApply(plan), limit, s2);
    RunsWork(ReadThenApply(plan), limit, s);
    FineParts(s.faults, 2, n + 2);
    RestCalls(s.faults, 2, n + 2);
    k := 0;
    if s.open && AllFine(s.faults, 2) {
      k := WorkExact(plan, limit, s2);
      assert Taken(s2, n + 2) == Taken(s, n + 4).(locks := s.locks + 1);
    }
    AllTogether(s, todo, w, Running(ReadThenApply(plan), limit, s), k);
  }

  lemma AfterThose<T>(before: seq<T>, more: seq<T>, all: seq<T>)
    requires all == before + more
    ensures |all| == |before| + |more| && all[|before|..] == more
  {
  }

  /** The same, with what takes effect given by its positions in the plan. */
  lemma RunInPlanOrder(plan: seq<Migration>, limit: nat, s: Link, r: Reply) returns (k: nat, at: seq<nat>)
    requires Settled(s) && limit > |Missing(s.registry.Keys, plan)| && r == Running(ReadThenApply(plan), limit, s)
    ensures RunResult(s, Missing(s.registry.Keys, plan), r, k)
    ensures |at| == k && |r.state.effects| == |s.effects| + k
    ensures InPlanOrder(s.registry.Keys, plan, at, r.state.effects[|s.effects|..])
    ensures r.ok ==> AllUnrecorded(s.registry.Keys, plan, at)
  {
    var todo := Missing(s.registry.Keys, plan);
    k := RunExact(plan, limit, s);
    at := FirstInPlanOrder(s.registry.Keys, plan, k, todo);
    AfterThose(s.effects, todo[..k], r.state.effects);
  }
}

/** One migration session, call by call: the lock with its deferred release, the registry, the transaction of
    each Apply and the row loop of Applied. Any call can fail, an error can hide that the server did what was
    asked, and a connection can break. The methods carry the calls out one by one and are proved to amount
    to what `MigrationCalls` says. */
module MigrationBackend {
  import opened Sql
  import opened Ordering
  import opened MigrationVersion
  import opened MigrationPlan
  import opened MigrationCalls

  class Connection {
    /** The database and the connection, as this session has made them, and how its coming calls end. */
    var link: Link

    // What happened so far: locks obtained, registry creations that succeeded, invocations of the work,
    // unlock calls, close calls, transactions begun, and commits and rollbacks asked for.
    ghost var acquired: nat
    ghost var created: nat
    ghost var workRuns: nat
    ghost var unlockCalls: nat
    ghost var closeCalls: nat
    ghost var begun: nat
    ghost var ended: nat

    constructor (faults: seq<Fault>)
      ensures link == Link(map[], [], 0, true, None, faults) && Settled(link)
      ensures acquired == created == workRuns == unlockCalls == closeCalls == begun == ended == 0
    {
      link := Link(map[], [], 0, true, None, faults);
      acquired, created, workRuns, unlockCalls, closeCalls, begun, ended := 0, 0, 0, 0, 0, 0, 0;
    }

    /** Makes a call that the server would accept or not. A closed connection reaches no server, and one that
        breaks takes its session's locks and transaction with it. */
    method Make(acceptable: bool) returns (ok: bool, done: bool)
      modifies this`link
      ensures ok <==> acceptable && old(link.open) && Call(old(link.faults), 0).Fine?
      ensures done <==> acceptable && old(link.open) && Call(old(link.faults), 0).Carried()
      ensures link == After(old(link), 1, Survives(old(link)))
    {
      var fault := Call(link.faults, 0);
      done := acceptable && link.open && fault.Carried();
      ok := done && fault.Fine?;
      if link.open && !fault.Loses() {
        link := link.(faults := Rest(link.faults, 1));
      } else {
        link := link.(faults := Rest(link.faults, 1), open := false, locks := 0, transaction := None);
      }
    }

    // ----- the lock

    /** `SELECT pg_advisory_lock($1)`; an error means the lock was not obtained. */
    method AcquireLock() returns (ok: bool)
      modifies this`link, this`acquired
      ensures ok == Calling(old(link), 1).ok
      ensures link == var s := Calling(old(link), 1).state; if ok then s.(locks := s.locks + 1) else s
      ensures acquired == if ok then old(acquired) + 1 else old(acquired)
    {
      var done;
      ok, done := Make(true);
      if ok {
        link := link.(locks := link.locks + 1);
        acquired := acquired + 1;
      }
    }

    /** `SELECT pg_advisory_unlock($1)`: false if the session does not hold the lock. */
    method QueryUnlock() returns (ok: bool, unlocked: bool)
      modifies this`link, this`unlockCalls
      ensures ok <==> old(link.open) && Call(old(link.faults), 0).Fine?
      ensures ok ==> unlocked == (old(link.locks) > 0)
      ensures link == var s := After(old(link), 1, Survives(old(link)));
                      if s.locks > 0 && Call(old(link.faults), 0).Carried() then s.(locks := s.locks - 1) else s
      ensures unlockCalls == old(unlockCalls) + 1
    {
      var done;
      ok, done := Make(true);
      unlocked := done && link.locks > 0;
      if unlocked {
        link := link.(locks := link.locks - 1);
      }
      unlockCalls := unlockCalls + 1;
    }

    /** Closing ends the server's session, whatever it reports: its locks and its transaction are gone. */
    method CloseConnection() returns (ok: bool)
      modifies this`link, this`closeCalls
      ensures ok <==> !old(link.open) || Call(old(link.faults), 0).Fine?
      ensures link == Gone(old(link), 1)
      ensures closeCalls == old(closeCalls) + 1
    {
      var wasOpen := link.open;
      var answered, _ := Make(true);
      ok := !wasOpen || answered;
      Die();
      closeCalls := closeCalls + 1;
    }

    /** The driver gives the connection up. */
    method Die()
      modifies this`link
      ensures link == Gone(old(link), 0)
    {
      link := link.(open := false, locks := 0, transaction := None);
    }

    /** Gives the lock back; a connection that might still hold it is closed. */
    method ReleaseLock() returns (ok: bool)
      modifies this`link, this`unlockCalls, this`closeCalls
      ensures Reply(ok, link) == Releasing(old(link))
      ensures ok <==> old(link.open) && old(link.locks) > 0 && Call(old(link.faults), 0).Fine?
      ensures ok ==> link.open && link.locks == old(link.locks) - 1 && closeCalls == old(closeCalls)
      ensures !ok ==> !link.open && link.locks == 0 && link.transaction.None? && closeCalls == old(closeCalls) + 1
      ensures unlockCalls == old(unlockCalls) + 1
    {
      RestCalls(link.faults, 1, 1);
      var answered, unlocked := QueryUnlock();
      if answered && unlocked {
        return true;
      }
      var closed := CloseConnection();
      ok := false;
    }

    // ----- the registry

    method CreateRegistryTable() returns (ok: bool)
      modifies this`link, this`created
      ensures Reply(ok, link) == Calling(old(link), 1)
      ensures created == if ok then old(created) + 1 else old(created)
    {
      var done;
      ok, done := Make(true);
      created := if ok then created + 1 else created;
    }

    /** Reads the registry: a query ordered by version, then a loop over its rows. It succeeds exactly if the
        connection is open and its calls succeed, and then returns exactly the recorded entries, in strictly
        ascending numeric order of version. */
    method Applied() returns (ok: bool, applied: seq<(UInt64, Migration)>)
      requires Settled(link)
      modifies this`link
      ensures Reply(ok, link) == Reading(old(link)) && Settled(link)
      ensures ok <==> old(link.open) && AllFine(old(link.faults), |old(link.registry)| + 2)
      ensures ok ==> applied == Entries(old(link.registry))
      ensures ok ==> forall i, j | 0 <= i < j < |applied| :: applied[i].0 < applied[j].0
      ensures ok ==> forall v: UInt64, m ::
                (v, m) in applied <==> v in old(link.registry) && old(link.registry)[v] == m
    {
      applied := [];
      ReadingExact(link);
      var queried, rows := QueryRows();
      if !queried { return false, []; }
      ok, applied := ReadRows(rows);
      if ok {
        ParsedEntries(rows, applied, old(link.registry));
      }
    }

    /** The query: the recorded rows in order, with versions as text. */
    method QueryRows() returns (ok: bool, rows: seq<(string, Migration)>)
      requires Settled(link)
      modifies this`link
      ensures Reply(ok, link) == Calling(old(link), 1)
      ensures ok ==> RowsOfEntries(rows, old(link.registry))
    {
      var order := VersionOrder();
      InOrder(link.registry, order);
      rows := RowsOf(link.registry, order);
      RowsExact(link.registry, link.effects, order);
      var done;
      ok, done := Make(true);
    }

    /** `ORDER BY version`: numerically. */
    method VersionOrder() returns (order: seq<UInt64>)
      ensures order == InVersionOrder(link.registry)
    {
      BelowIsTotal();
      order := Sort(Below, link.registry.Keys);
    }

    /** The row loop: scan, parse the version's text, append; it ends at the first error. */
    method ReadRows(rows: seq<(string, Migration)>) returns (ok: bool, applied: seq<(UInt64, Migration)>)
      modifies this`link
      ensures link == Calling(old(link), RowCalls(rows)).state
      ensures ok <==> Calling(old(link), RowCalls(rows)).ok && RowCalls(rows) == |rows| + 1
      ensures ok <==> && old(link.open) && AllFine(old(link.faults), |rows| + 1)
                      && forall i | 0 <= i < |rows| :: ParseMigrationVersion(rows[i].0).Some?
      ensures ok ==> && |applied| == |rows|
                     && forall i | 0 <= i < |rows| ::
                          ParseMigrationVersion(rows[i].0) == Some(applied[i].0) && applied[i].1 == rows[i].1
    {
      applied := [];
      RowsReadExactly(link, rows);
      for i := 0 to |rows|
        invariant RowCalls(rows) == i + RowCalls(rows[i..])
        invariant Calling(old(link), RowCalls(rows)) == Calling(link, RowCalls(rows[i..]))
        invariant i > 0 ==> link.open
        invariant |applied| == i
        invariant forall j | 0 <= j < i ::
                    ParseMigrationVersion(rows[j].0) == Some(applied[j].0) && applied[j].1 == rows[j].1
      {
        assert rows[i..][0] == rows[i] && rows[i..][1..] == rows[i + 1..];
        var scanned, _ := Make(true);
        if !scanned { return false, []; }
        var version := ParseMigrationVersion(rows[i].0);
        if version.None? { return false, []; }
        applied := applied + [(version.value, rows[i].1)];
      }
      var finished, _ := Make(true);
      ok := finished;
    }

    // ----- applying one migration

    /** BEGIN; inside a transaction it would only warn. The driver closes the connection if it fails. */
    method BeginTransaction() returns (ok: bool)
      modifies this`link, this`begun
      ensures ok <==> old(link.open) && Call(old(link.faults), 0).Fine?
      ensures ok ==> link == Begun(Taken(old(link), 1))
      ensures !ok ==> link == Gone(old(link), 1)
      ensures begun == if ok then old(begun) + 1 else old(begun)
    {
      var done;
      ok, done := Make(true);
      if !ok {
        Die();
      } else {
        link := if link.transaction.Some? then link else link.(transaction := Some(Transaction([], [])));
        begun := begun + 1;
      }
    }

    method ExecScript(m: Migration) returns (ok: bool)
      requires link.open && link.transaction.Some?
      modifies this`link
      ensures ok <==> Call(old(link.faults), 0).Fine?
      ensures ok ==> link == WithScript(Taken(old(link), 1), m)
      ensures !ok ==> Undone(link) == Undone(After(old(link), 1, Survives(old(link))))
    {
      var done;
      ok, done := Make(true);
      if done && link.open {
        link := WithScript(link, m);
      }
    }

    /** The INSERT is refused by the primary key or a CHECK constraint of the registry. */
    method InsertRow(m: Migration) returns (ok: bool)
      requires link.open && link.transaction.Some?
      modifies this`link
      ensures ok <==> && m.version !in old(link.registry) && m.version !in Versions(old(link.transaction).value.rows)
                      && RegistryChecks(m) && Call(old(link.faults), 0).Fine?
      ensures ok ==> link == WithRow(Taken(old(link), 1), m)
      ensures !ok ==> Undone(link) == Undone(After(old(link), 1, Survives(old(link))))
    {
      var done;
      ok, done := Make(m.version !in link.registry && m.version !in Versions(link.transaction.value.rows)
                       && RegistryChecks(m));
      if done && link.open {
        link := WithRow(link, m);
      }
    }

    /** All of the transaction takes effect or none of it; after an error it may be either. The driver closes
        the connection if the commit fails and the server does not report that the transaction is over. */
    method CommitTransaction() returns (ok: bool)
      requires link.open && link.transaction.Some?
      modifies this`link, this`ended
      ensures ok <==> Call(old(link.faults), 0).Fine?
      ensures link == var s := Undone(After(old(link), 1, Survives(old(link))));
                      if Call(old(link.faults), 0).Carried()
                      then s.(registry := Inserted(s.registry, old(link.transaction).value.rows),
                              effects := s.effects + old(link.transaction).value.effects)
                      else s
      ensures ended == old(ended) + 1
    {
      var committing := link.transaction.value;
      var done;
      ok, done := Make(true);
      if done {
        link := link.(registry := Inserted(link.registry, committing.rows),
                      effects := link.effects + committing.effects);
      }
      link := Undone(link);
      ended := ended + 1;
    }

    /** The driver closes the connection if the rollback fails. */
    method RollBack() returns (ok: bool)
      modifies this`link, this`ended
      ensures ok <==> old(link.open) && Call(old(link.faults), 0).Fine?
      ensures link == After(Undone(old(link)), 1, ok)
      ensures ended == old(ended) + 1
    {
      var done;
      ok, done := Make(true);
      if !ok {
        Die();
      }
      link := Undone(link);
      ended := ended + 1;
    }

    /** Runs a migration's script and records it, in one transaction: both take effect or neither does, and
        they have if no error is reported. A transaction begun is committed or rolled back, once, and none
        stays open. */
    method Apply(m: Migration) returns (ok: bool)
      requires Settled(link)
      modifies this`link, this`begun, this`ended
      ensures Reply(ok, link) == Applying(old(link), m)
      ensures Settled(link) && link.transaction.None?
      ensures ok <==> && old(link.open) && Acceptable(m) && RegistryChecks(m) && m.version !in old(link.registry)
                      && AllFine(old(link.faults), 4)
      ensures if && old(link.open) && Acceptable(m) && RegistryChecks(m) && m.version !in old(link.registry)
                 && AllFine(old(link.faults), 3) && Call(old(link.faults), 3).Carried()
              then link.effects == old(link.effects) + [m] && link.registry == old(link.registry)[m.version := m]
              else link.effects == old(link.effects) && link.registry == old(link.registry)
      ensures link.open ==> old(link.open) && link.locks == old(link.locks)
      ensures begun - old(begun) == ended - old(ended)
      ensures begun == old(begun) + if Acceptable(m) && old(link.open) && Call(old(link.faults), 0).Fine? then 1 else 0
    {
      ApplyExact(link, m);
      FirstFour(link.faults);
      var problem := Validate(m);
      if problem.Some? { return false; }
      var started := BeginTransaction();
      if !started { return false; }
      ok := ScriptAndRecord(m);
    }

    /** The part of Apply inside the transaction. */
    method ScriptAndRecord(m: Migration) returns (ok: bool)
      requires link.open && link.transaction == Some(Transaction([], []))
      modifies this`link, this`ended
      ensures Reply(ok, link) == Transacting(Undone(old(link)), m)
      ensures ended == old(ended) + 1
    {
      RestCalls(link.faults, 1, 0);
      RestCalls(link.faults, 1, 1);
      RestCalls(link.faults, 2, 0);
      RestCalls(link.faults, 2, 1);
      var ran := ExecScript(m);
      if !ran {
        var undone := RollBack();
        return false;
      }
      var recorded := InsertRow(m);
      if !recorded {
        var undone := RollBack();
        return false;
      }
      InsertedOne(link.registry, m);
      ok := CommitTransaction();
    }

    // ----- running under the lock

    /** Hands the session to a client, request by request. */
    method Perform(work: Work, limit: nat) returns (ok: bool)
      requires Settled(link)
      modifies this`link, this`begun, this`ended
      ensures Reply(ok, link) == Performing(work, limit, old(link))
      ensures Settled(link)
      ensures begun - old(begun) == ended - old(ended)
      decreases limit
    {
      if work.Return? {
        return work.ok;
      } else if limit == 0 {
        return false;
      } else if work.ReadThen? {
        var read, rows := Applied();
        ok := Perform(work.read(if read then Some(rows) else None), limit - 1);
      } else {
        var applied := Apply(work.migration);
        ok := Perform(work.applied(applied), limit - 1);
      }
    }

    /** The body of `RunLocked` that runs with the release deferred: the registry, then the work. */
    method CreateAndWork(work: Work, limit: nat) returns (ok: bool)
      requires Settled(link) && link.locks > 0
      modifies this`link, this`begun, this`ended, this`created, this`workRuns
      ensures Reply(ok, link) == Creating(work, limit, old(link))
      ensures Settled(link)
      ensures created - old(created) == workRuns - old(workRuns) == if Calling(old(link), 1).ok then 1 else 0
      ensures begun - old(begun) == ended - old(ended)
    {
      CallingExact(link, 1);
      ok := CreateRegistryTable();
      if ok {
        workRuns := workRuns + 1;
        ok := Perform(work, limit);
      }
    }

    /** `RunLocked` for any client: the lock, then the registry, then the work, and in every case the deferred
        release. */
    method RunLocked(work: Work, limit: nat) returns (ok: bool)
      requires Settled(link)
      modifies this
      ensures Reply(ok, link) == Running(work, limit, old(link))
      ensures Settled(link) && link.transaction.None?
      // The work runs once if lock and registry creation succeeded, and otherwise not at all.
      ensures acquired == old(acquired) + if old(link.open) && Call(old(link.faults), 0).Fine? then 1 else 0
      ensures created == old(created) + if old(link.open) && AllFine(old(link.faults), 2) then 1 else 0
      ensures workRuns == old(workRuns) + if old(link.open) && AllFine(old(link.faults), 2) then 1 else 0
      // An obtained lock is asked back once: it is given back, or it is gone with the connection.
      ensures unlockCalls - old(unlockCalls) == acquired - old(acquired)
      ensures acquired > old(acquired) ==>
                || (link.open && link.locks == old(link.locks) && closeCalls == old(closeCalls))
                || (!link.open && link.locks == 0 && closeCalls == old(closeCalls) + 1)
      ensures acquired == old(acquired) ==>
                && !ok && link == After(old(link), 1, Survives(old(link))) && closeCalls == old(closeCalls)
      // The result is nil exactly if every stage succeeded: lock, registry, work and unlock.
      ensures ok <==> && old(link.open) && AllFine(old(link.faults), 2)
                      && var w := Performing(work, limit, Taken(old(link), 2).(locks := old(link.locks) + 1));
                         w.ok && w.state.open && Call(w.state.faults, 0).Fine?
      ensures begun - old(begun) == ended - old(ended)
    {
      TwoCalls(link);
      RunsWork(work, limit, link);
      RunReleases(work, limit, link);
      CallingExact(link, 1);
      var locked := AcquireLock();
      if !locked { return false; }
      ok := CreateAndWork(work, limit);
      var released := ReleaseLock();
      ok := ok && released;
    }

    /** A migration runner's session, for every failure pattern. It returns nil exactly if the connection is
        open, the registry takes what is missing, and its calls all succeed: lock, registry creation, query,
        one for every row and one to end the rows, four for every missing migration, and unlock. The
        migrations that take effect are the first `k` of the missing ones, and `k` is as `RunLands` decides. They
        stand in the plan at the positions `at`, in this order, with nothing unrecorded passed over. */
    method RunMigrations(plan: seq<Migration>) returns (ok: bool, ghost k: nat, ghost at: seq<nat>)
      requires Settled(link)
      modifies this
      ensures Reply(ok, link)
              == Running(ReadThenApply(plan), |Missing(old(link.registry).Keys, plan)| + 1, old(link))
      ensures Settled(link) && link.transaction.None?
      ensures var todo := Missing(old(link.registry).Keys, plan);
              && (ok <==> && old(link.open) && Recordable(old(link.registry).Keys, todo)
                          && AllFine(old(link.faults), |old(link.registry)| + 4 * |todo| + 5))
              && k <= |todo| && link.effects == old(link.effects) + todo[..k]
              && (forall j | 1 <= j <= |todo| :: j <= k <==> RunLands(old(link), todo, j))
              && (ok ==> link.open && k == |todo|)
      ensures |at| == k && |link.effects| == |old(link.effects)| + k
      ensures InPlanOrder(old(link.registry).Keys, plan, at, link.effects[|old(link.effects)|..])
      ensures ok ==> AllUnrecorded(old(link.registry).Keys, plan, at)
      ensures link.open ==> old(link.open) && link.locks == old(link.locks)
    {
      var limit := |Missing(link.registry.Keys, plan)| + 1;
      k, at := RunInPlanOrder(plan, limit, link, Running(ReadThenApply(plan), limit, link));
      RunReleases(ReadThenApply(plan), limit, link);
      ok := RunLocked(ReadThenApply(plan), limit);
    }
  }

  // ----- facts about rows and calls

  /** `SELECT version::text, ...`: the rows in the given order, versions as text. */
  function RowsOf(registry: map<UInt64, Migration>, order: seq<UInt64>): seq<(string, Migration)>
    requires forall i | 0 <= i < |order| :: order[i] in registry
  {
    seq(|order|, i requires 0 <= i < |order| => (FormatUint(order[i]), registry[order[i]]))
  }

  /** The rows are the recorded entries, and every version parses to its number. */
  ghost predicate RowsOfEntries(rows: seq<(string, Migration)>, registry: map<UInt64, Migration>) {
    && |rows| == |registry| && RowCalls(rows) == |rows| + 1
    && forall i | 0 <= i < |rows| ::
         ParseMigrationVersion(rows[i].0) == Some(Entries(registry)[i].0) && rows[i].1 == Entries(registry)[i].1
  }

  lemma ParsedEntries(rows: seq<(string, Migration)>, applied: seq<(UInt64, Migration)>,
                      registry: map<UInt64, Migration>)
    requires RowsOfEntries(rows, registry) && |applied| == |rows|
    requires forall i | 0 <= i < |rows| ::
               ParseMigrationVersion(rows[i].0) == Some(applied[i].0) && applied[i].1 == rows[i].1
    ensures applied == Entries(registry)
    ensures forall i, j | 0 <= i < j < |applied| :: applied[i].0 < applied[j].0
    ensures forall v: UInt64, m :: (v, m) in applied <==> v in registry && registry[v] == m
  {
    assert applied == Entries(registry);
    EntriesExact(registry);
  }

  lemma RowsExact(registry: map<UInt64, Migration>, effects: seq<Migration>, order: seq<UInt64>)
    requires Records(registry, effects) && order == InVersionOrder(registry)
    ensures forall i | 0 <= i < |order| :: order[i] in registry
    ensures RowsOfEntries(RowsOf(registry, order), registry)
  {
    InOrder(registry, order);
    var rows := RowsOf(registry, order);
    forall i | 0 <= i < |rows| ensures ParseMigrationVersion(rows[i].0) == Some(order[i]) {
      var k :| 0 <= k < |effects| && effects[k].version == order[i];
      assert effects[k] in effects;
      VersionRoundTrip(FormatUint(order[i]), order[i]);
    }
    AllParse(rows);
  }

  /** The calls the row loop makes unless one fails: up to the first version that does not parse, or one for
      each row and one to end. */
  function RowCalls(rows: seq<(string, Migration)>): nat {
    if rows == [] || ParseMigrationVersion(rows[0].0).None? then 1 else 1 + RowCalls(rows[1..])
  }

  /** The row loop succeeds exactly if the connection is open, its calls succeed and every version parses. */
  lemma RowsReadExactly(s: Link, rows: seq<(string, Migration)>)
    ensures Calling(s, RowCalls(rows)).ok && RowCalls(rows) == |rows| + 1 <==>
            && s.open && AllFine(s.faults, |rows| + 1)
            && forall i | 0 <= i < |rows| :: ParseMigrationVersion(rows[i].0).Some?
    ensures RowCalls(rows) == |rows| + 1 <==> forall i | 0 <= i < |rows| :: ParseMigrationVersion(rows[i].0).Some?
  {
    AllParse(rows);
    CallingExact(s, RowCalls(rows));
  }

  lemma {:induction false} AllParse(rows: seq<(string, Migration)>)
    ensures 1 <= RowCalls(rows) <= |rows| + 1
    ensures (forall i | 0 <= i < |rows| :: ParseMigrationVersion(rows[i].0).Some?) <==> RowCalls(rows) == |rows| + 1
  {
    if rows == [] {
    } else {
      AllParse(rows[1..]);
    }
  }
}

/** Any number of migration sessions on one database. Each runs `RunLocked` once, with the work of a
    migration runner: read the registry, then apply what the plan has and the registry lacks, in order,
    stopping at the first error. Every call can fail, a failed commit may or may not have taken effect, and
    a connection can be lost at any time, which frees its lock and discards its open transaction. */
module MigrationSessions {
  import opened Sql
  import opened MigrationVersion
  import opened MigrationPlan

  type SessionId = nat
  type LockId = int

  /** Where a session stands; `todo` is what its work has still to apply. */
  datatype Phase =
    | Idle
    | Locked
    | Ready
    | Planned(todo: seq<Migration>)
    | Opened(todo: seq<Migration>)
    | Scripted(todo: seq<Migration>)
    | Recorded(todo: seq<Migration>)
    | Leaving(failed: bool)
    | Closing
    | Done(ok: bool)

  /** `alive` is whether the server still has this connection's session; `ran` and `rows` are the scripts run
      and the registry rows inserted in its open transaction. */
  datatype Session = Session(plan: seq<Migration>, lock: LockId, phase: Phase, alive: bool, ran: seq<Migration>,
                             rows: seq<Migration>)

  /** `registry` and `effects` are the committed registry rows and the committed effects of scripts.
      `base` holds the effects from before the sessions started, `order` lists the sessions in the order they
      obtained their lock and `commits` counts what each has committed; they only record what happened. */
  datatype Database = Database(
    sessions: map<SessionId, Session>,
    holders: map<LockId, SessionId>,
    registry: map<UInt64, Migration>,
    effects: seq<Migration>,
    base: seq<Migration>,
    order: seq<SessionId>,
    commits: map<SessionId, nat>)

  datatype Action =
    | Acquire
    | CreateRegistry
    | Read
    | Begin
    | Script
    | Record
    | Commit(reported: bool)
    | Stop
    | Fail
    | Unlock
    | UnlockFails(released: bool)
    | Close
    | Lose

  datatype Event = Event(session: SessionId, action: Action)

  /** The session is between obtaining its lock and asking to release it, and the server has not dropped it. */
  predicate Inside(s: Session) {
    s.alive && (s.phase.Locked? || s.phase.Ready? || Working(s.phase) || s.phase.Leaving?)
  }

  /** The work is under way and knows what is missing. */
  predicate Working(p: Phase) {
    p.Planned? || p.Opened? || p.Scripted? || p.Recorded?
  }

  /** The migration whose version the session's open transaction has inserted. */
  function Inserting(d: Database, id: SessionId): Option<Migration> {
    if id in d.sessions && d.sessions[id].alive && d.sessions[id].phase.Recorded? && d.sessions[id].phase.todo != []
    then Some(d.sessions[id].phase.todo[0]) else None
  }

  /** Another open transaction has inserted this version: the primary key makes a second insert wait. */
  predicate Contended(d: Database, id: SessionId, version: UInt64) {
    exists other :: && other in d.sessions && other != id && Inserting(d, other).Some?
                    && Inserting(d, other).value.version == version
  }

  predicate Enabled(d: Database, e: Event) {
    && e.session in d.sessions
    && var s := d.sessions[e.session];
       match e.action
       case Acquire => s.alive && s.phase.Idle? && s.lock !in d.holders
       case CreateRegistry => s.alive && s.phase.Locked?
       case Read => s.alive && s.phase.Ready?
       case Begin => s.alive && s.phase.Planned? && s.phase.todo != [] && Acceptable(s.phase.todo[0])
       case Script => s.alive && s.phase.Opened? && s.phase.todo != []
       case Record =>
         && s.alive && s.phase.Scripted? && s.phase.todo != []
         && RegistryChecks(s.phase.todo[0])
         && s.phase.todo[0].version !in d.registry
         && !Contended(d, e.session, s.phase.todo[0].version)
       case Commit(_) => s.alive && s.phase.Recorded? && s.phase.todo != []
       case Stop => s.phase.Planned? && s.phase.todo == []
       case Fail => s.phase.Idle? || s.phase.Locked? || s.phase.Ready? || Working(s.phase)
       case Unlock => s.alive && s.phase.Leaving? && s.lock in d.holders && d.holders[s.lock] == e.session
       case UnlockFails(_) => s.phase.Leaving?
       case Close => s.phase.Closing?
       case Lose => s.alive
  }

  function CommitsOf(d: Database, id: SessionId): nat {
    if id in d.commits then d.commits[id] else 0
  }

  /** Where the session stands after the event. */
  function PhaseAfter(d: Database, e: Event): Phase
    requires Enabled(d, e)
  {
    var s := d.sessions[e.session];
    match e.action
    case Acquire => Locked
    case CreateRegistry => Ready
    case Read => Planned(Missing(d.registry.Keys, s.plan))
    case Begin => Opened(s.phase.todo)
    case Script => Scripted(s.phase.todo)
    case Record => Recorded(s.phase.todo)
    case Commit(reported) => if reported then Planned(s.phase.todo[1..]) else Leaving(true)
    case Stop => Leaving(false)
    case Fail => if s.phase.Idle? then Done(false) else Leaving(true)
    case Unlock => Done(!s.phase.failed)
    case UnlockFails(_) => Closing
    case Close => Done(false)
    case Lose => s.phase
  }

  /** Whether the server drops the session's lock: it is unlocked, or the server's session ends. */
  predicate Frees(action: Action) {
    action.Unlock? || action == UnlockFails(true) || action.Close? || action.Lose?
  }

  function HoldersAfter(d: Database, e: Event): map<LockId, SessionId>
    requires Enabled(d, e)
  {
    if e.action.Acquire? then d.holders[d.sessions[e.session].lock := e.session]
    else if Frees(e.action) then map l | l in d.holders && d.holders[l] != e.session :: d.holders[l]
    else d.holders
  }

  function Next(d: Database, e: Event): Database
    requires Enabled(d, e)
  {
    var s := d.sessions[e.session];
    var s' := Session(
      s.plan, s.lock, PhaseAfter(d, e), s.alive && !e.action.Close? && !e.action.Lose?,
      if e.action.Script? then s.ran + [s.phase.todo[0]] else if e.action.Record? then s.ran else [],
      if e.action.Record? then s.rows + [s.phase.todo[0]] else []);
    Database(
      d.sessions[e.session := s'],
      HoldersAfter(d, e),
      if e.action.Commit? then Inserted(d.registry, s.rows) else d.registry,
      if e.action.Commit? then d.effects + s.ran else d.effects,
      d.base,
      if e.action.Acquire? then d.order + [e.session] else d.order,
      if e.action.Commit? then d.commits[e.session := CommitsOf(d, e.session) + 1] else d.commits)
  }

  /** No session has started; the registry may have been filled before, by whatever applied its entries. */
  ghost predicate Initial(d: Database) {
    && (forall id | id in d.sessions :: d.sessions[id].phase.Idle?)
    && Records(d.registry, d.effects) && d.effects == d.base
    && d.holders == map[] && d.order == [] && d.commits == map[]
  }

  // ----- mutual exclusion

  /** A session inside holds its lock, so no two sessions with one lock are inside together. */
  ghost predicate LocksHeld(d: Database) {
    forall id | id in d.sessions && Inside(d.sessions[id]) ::
      d.sessions[id].lock in d.holders && d.holders[d.sessions[id].lock] == id
  }

  lemma LocksHeldKept(d: Database, e: Event)
    requires LocksHeld(d) && Enabled(d, e)
    ensures LocksHeld(Next(d, e))
  {
  }

  /** A held lock belongs to a session that is inside or about to close its connection: one that has
      finished, or whose connection is gone, holds nothing. */
  ghost predicate HoldersLive(d: Database) {
    forall lock | lock in d.holders ::
      && d.holders[lock] in d.sessions
      && var s := d.sessions[d.holders[lock]];
         s.lock == lock && s.alive && (Inside(s) || s.phase.Closing?)
  }

  lemma HoldersLiveKept(d: Database, e: Event)
    requires HoldersLive(d) && LocksHeld(d) && Enabled(d, e)
    ensures HoldersLive(Next(d, e))
  {
    var d' := Next(d, e);
    forall lock | lock in d'.holders
      ensures && d'.holders[lock] in d'.sessions
              && var s := d'.sessions[d'.holders[lock]];
                 s.lock == lock && s.alive && (Inside(s) || s.phase.Closing?)
    {
      if !(e.action.Acquire? && lock == d.sessions[e.session].lock) {
        assert lock in d.holders && d'.holders[lock] == d.holders[lock];
      }
    }
  }

  // ----- the registry records exactly the effects

  ghost predicate RecordsEffects(d: Database) {
    Records(d.registry, d.effects)
  }

  /** What an open transaction has done so far belongs to the migration at hand. */
  predicate Staged(s: Session) {
    match s.phase
    case Opened(todo) => todo != [] && Acceptable(todo[0]) && s.ran == [] && s.rows == []
    case Scripted(todo) => todo != [] && Acceptable(todo[0]) && s.ran == [todo[0]] && s.rows == []
    case Recorded(todo) => todo != [] && Acceptable(todo[0]) && s.ran == [todo[0]] && s.rows == [todo[0]]
    case _ => true
  }

  ghost predicate AllStaged(d: Database) {
    forall id | id in d.sessions && d.sessions[id].alive :: Staged(d.sessions[id])
  }

  lemma AllStagedKept(d: Database, e: Event)
    requires AllStaged(d) && Enabled(d, e)
    ensures AllStaged(Next(d, e))
  {
  }

  /** A transaction that has inserted a version is alone with it, and the version is not recorded yet. */
  ghost predicate InsertsExclusive(d: Database) {
    && (forall id | Inserting(d, id).Some? ::
          RegistryChecks(Inserting(d, id).value) && Inserting(d, id).value.version !in d.registry)
    && (forall id, other | id != other && Inserting(d, id).Some? && Inserting(d, other).Some? ::
          Inserting(d, id).value.version != Inserting(d, other).value.version)
  }

  lemma InsertingAfter(d: Database, e: Event, id: SessionId)
    requires Enabled(d, e)
    ensures id != e.session ==> Inserting(Next(d, e), id) == Inserting(d, id)
    ensures id == e.session && !e.action.Record? ==> Inserting(Next(d, e), id).None?
    ensures id == e.session && e.action.Record? ==> Inserting(Next(d, e), id) == Some(d.sessions[id].phase.todo[0])
  {
  }

  /** A commit publishes one script's effect and that migration's row. */
  lemma RegistryAfter(d: Database, e: Event)
    requires AllStaged(d) && Enabled(d, e)
    ensures e.action.Commit? ==>
              && Inserting(d, e.session) == Some(d.sessions[e.session].phase.todo[0])
              && var m := Inserting(d, e.session).value;
                 && Acceptable(m)
                 && Next(d, e).registry == d.registry[m.version := m] && Next(d, e).effects == d.effects + [m]
    ensures !e.action.Commit? ==> Next(d, e).registry == d.registry && Next(d, e).effects == d.effects
  {
    if e.action.Commit? {
      assert Staged(d.sessions[e.session]);
      InsertedOne(d.registry, d.sessions[e.session].phase.todo[0]);
    }
  }

  lemma InsertsExclusiveKept(d: Database, e: Event)
    requires InsertsExclusive(d) && AllStaged(d) && Enabled(d, e)
    ensures InsertsExclusive(Next(d, e))
  {
    var d' := Next(d, e);
    RegistryAfter(d, e);
    forall id ensures id != e.session ==> Inserting(d', id) == Inserting(d, id) {
      InsertingAfter(d, e, id);
    }
    InsertingAfter(d, e, e.session);
  }

  lemma RecordsEffectsKept(d: Database, e: Event)
    requires RecordsEffects(d) && InsertsExclusive(d) && AllStaged(d) && Enabled(d, e)
    ensures RecordsEffects(Next(d, e))
  {
    RegistryAfter(d, e);
    if e.action.Commit? {
      RecordingKeeps(d.registry, d.effects, Inserting(d, e.session).value);
    }
  }

  /** Everything that holds in every reachable database, whatever locks the sessions use. */
  ghost predicate Good(d: Database) {
    LocksHeld(d) && HoldersLive(d) && AllStaged(d) && InsertsExclusive(d) && RecordsEffects(d)
  }

  lemma GoodKept(d: Database, e: Event)
    requires Good(d) && Enabled(d, e)
    ensures Good(Next(d, e))
  {
    LocksHeldKept(d, e);
    HoldersLiveKept(d, e);
    AllStagedKept(d, e);
    InsertsExclusiveKept(d, e);
    RecordsEffectsKept(d, e);
  }
}

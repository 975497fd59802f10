/** Sessions that share one lock are serialisable: whatever the interleaving and the failures, the database
    ends up as if the sessions had run one after another in the order they obtained the lock, on the registry
    they found. */
module MigrationSerial {
  import opened Sql
  import opened MigrationPlan
  import opened MigrationSessions

  // ----- runs

  /** A run: every event was possible when it happened. */
  ghost predicate Runs(start: Database, events: seq<Event>) {
    forall i | 0 <= i < |events| :: EnabledAt(start, events, i)
  }

  ghost predicate EnabledAt(start: Database, events: seq<Event>, i: nat)
    requires i < |events|
  {
    Enabled(Exec(start, events[..i]), events[i])
  }

  ghost function Exec(start: Database, events: seq<Event>): Database {
    if events == [] then start
    else
      var d, e := Exec(start, events[..|events| - 1]), events[|events| - 1];
      if Enabled(d, e) then Next(d, e) else d
  }

  lemma Forward(start: Database, events: seq<Event>, i: nat, j: nat)
    requires Runs(start, events) && j == i + 1 <= |events|
    ensures Enabled(Exec(start, events[..i]), events[i])
    ensures Exec(start, events[..j]) == Next(Exec(start, events[..i]), events[i])
  {
    assert EnabledAt(start, events, i);
    assert events[..j][..i] == events[..i];
  }

  lemma {:induction false} GoodAlong(start: Database, events: seq<Event>, n: nat)
    requires Good(start) && Runs(start, events) && n <= |events|
    ensures Good(Exec(start, events[..n]))
  {
    if n == 0 {
    } else {
      GoodAlong(start, events, n - 1);
      Forward(start, events, n - 1, n);
      GoodKept(Exec(start, events[..n - 1]), events[n - 1]);
    }
  }

  /** Under every failure pattern, and whatever locks the sessions use: a session inside holds its lock, the
      registry rows are exactly the migrations whose scripts took effect, no version is committed twice, and
      a lock is never left with a session that has finished. */
  lemma RegistryMatchesEffects(start: Database, events: seq<Event>, n: nat)
    requires Initial(start) && Runs(start, events) && n <= |events|
    ensures var d := Exec(start, events[..n]);
            LocksHeld(d) && HoldersLive(d) && AllStaged(d) && InsertsExclusive(d) && RecordsEffects(d)
  {
    GoodAlong(start, events, n);
  }

  // ----- the serial execution

  /** What a session adds to the database when it runs alone on `base`: the first of the migrations it finds
      missing, as many as it managed to commit. */
  ghost function Share(d: Database, base: seq<Migration>, id: SessionId): seq<Migration> {
    if id in d.sessions then
      var missing := Missing(Versions(base), d.sessions[id].plan);
      missing[..Least(CommitsOf(d, id), |missing|)]
    else []
  }

  /** The sessions in `order`, one after another, on what was there before. */
  ghost function Serial(d: Database, order: seq<SessionId>): seq<Migration> {
    if order == [] then d.base
    else
      var base := Serial(d, order[..|order| - 1]);
      base + Share(d, base, order[|order| - 1])
  }

  lemma {:induction false} SerialDepends(d: Database, d': Database, order: seq<SessionId>)
    requires d'.base == d.base
    requires forall id | id in order && id in d.sessions ::
               id in d'.sessions && d'.sessions[id].plan == d.sessions[id].plan && CommitsOf(d', id) == CommitsOf(d, id)
    requires forall id | id in order && id in d'.sessions :: id in d.sessions
    ensures Serial(d', order) == Serial(d, order)
  {
    if order == [] {
    } else {
      SerialDepends(d, d', order[..|order| - 1]);
    }
  }

  ghost predicate OneLock(d: Database, lock: LockId) {
    forall id | id in d.sessions :: d.sessions[id].lock == lock
  }

  // ----- the invariant

  ghost predicate OrderSound(d: Database) {
    && (forall i | 0 <= i < |d.order| :: d.order[i] in d.sessions && !d.sessions[d.order[i]].phase.Idle?)
    && (forall i, j | 0 <= i < j < |d.order| :: d.order[i] != d.order[j])
    && (forall id | id in d.sessions && d.sessions[id].phase.Idle? :: CommitsOf(d, id) == 0)
  }

  /** How far a session inside has come with what was missing when it obtained the lock. */
  predicate Progress(s: Session, missing: seq<Migration>, commits: nat) {
    match s.phase
    case Locked => commits == 0
    case Ready => commits == 0
    case Planned(todo) => commits <= |missing| && todo == missing[commits..]
    case Opened(todo) => commits <= |missing| && todo == missing[commits..]
    case Scripted(todo) => commits <= |missing| && todo == missing[commits..]
    case Recorded(todo) => commits <= |missing| && todo == missing[commits..]
    case Leaving(failed) => commits <= |missing| && (!failed ==> commits == |missing|)
    case _ => true
  }

  /** What the session that obtained the lock last found missing. */
  ghost function LastMissing(d: Database): seq<Migration> {
    if d.order != [] && d.order[|d.order| - 1] in d.sessions
    then Missing(Versions(Serial(d, d.order[..|d.order| - 1])), d.sessions[d.order[|d.order| - 1]].plan)
    else []
  }

  /** A session inside is the last that obtained the lock. */
  ghost predicate InsideIsLast(d: Database) {
    forall id | id in d.sessions && Inside(d.sessions[id]) ::
      && d.order != [] && d.order[|d.order| - 1] == id
      && Progress(d.sessions[id], LastMissing(d), CommitsOf(d, id))
  }

  ghost predicate SuccessMeansApplied(d: Database) {
    forall id | id in d.sessions && d.sessions[id].phase == Done(true) ::
      forall m | m in d.sessions[id].plan :: m.version in d.registry
  }

  ghost predicate Serialised(d: Database) {
    && OrderSound(d) && InsideIsLast(d) && SuccessMeansApplied(d)
    && d.effects == Serial(d, d.order)
  }

  // ----- the invariant is kept

  lemma PlansStay(d: Database, e: Event)
    requires Enabled(d, e)
    ensures Next(d, e).sessions.Keys == d.sessions.Keys
    ensures forall id | id in d.sessions ::
              Next(d, e).sessions[id].plan == d.sessions[id].plan && Next(d, e).sessions[id].lock == d.sessions[id].lock
    ensures forall id | id in d.sessions && id != e.session :: Next(d, e).sessions[id] == d.sessions[id]
    ensures !e.action.Commit? ==> Next(d, e).commits == d.commits
    ensures !e.action.Acquire? ==> Next(d, e).order == d.order
  {
  }

  lemma OrderSoundKept(d: Database, e: Event)
    requires OrderSound(d) && Enabled(d, e)
    ensures OrderSound(Next(d, e))
  {
    PlansStay(d, e);
  }

  /** Nobody else is inside when the lock is obtained, and the session starts from everything done so far. */
  lemma AcquireKeeps(d: Database, e: Event, lock: LockId)
    requires Serialised(d) && LocksHeld(d) && OneLock(d, lock) && Enabled(d, e) && e.action.Acquire?
    ensures Serialised(Next(d, e))
  {
    OrderSoundKept(d, e);
    AcquireSerial(d, e);
    AcquireInside(d, e, lock);
    assert Next(d, e).registry == d.registry;
    PlansStay(d, e);
  }

  lemma AcquireAppends(d: Database, e: Event)
    requires OrderSound(d) && Enabled(d, e) && e.action.Acquire?
    ensures var d' := Next(d, e);
            d'.order == d.order + [e.session] && d'.effects == d.effects && d'.base == d.base
    ensures CommitsOf(Next(d, e), e.session) == 0
  {
  }

  /** A session that has committed nothing adds nothing. */
  lemma NothingAdded(d: Database, order: seq<SessionId>, id: SessionId, order': seq<SessionId>)
    requires order' == order + [id] && CommitsOf(d, id) == 0
    ensures Serial(d, order') == Serial(d, order)
  {
    assert order'[..|order'| - 1] == order;
    assert Share(d, Serial(d, order), id) == [];
  }

  lemma AcquireSerial(d: Database, e: Event)
    requires OrderSound(d) && d.effects == Serial(d, d.order) && Enabled(d, e) && e.action.Acquire?
    ensures Next(d, e).effects == Serial(Next(d, e), Next(d, e).order)
  {
    PlansStay(d, e);
    AcquireAppends(d, e);
    SerialDepends(d, Next(d, e), d.order);
    NothingAdded(Next(d, e), d.order, e.session, Next(d, e).order);
  }

  lemma AcquireInside(d: Database, e: Event, lock: LockId)
    requires OrderSound(d) && LocksHeld(d) && OneLock(d, lock) && Enabled(d, e) && e.action.Acquire?
    ensures InsideIsLast(Next(d, e))
  {
    var d' := Next(d, e);
    PlansStay(d, e);
    forall id | id in d.sessions && id != e.session ensures !Inside(d'.sessions[id]) {
      assert !Inside(d.sessions[id]);
    }
  }

  /** Events that neither obtain the lock nor commit leave the serial execution as it is. */
  lemma QuietKeepsSerial(d: Database, e: Event)
    requires Enabled(d, e) && !e.action.Acquire? && !e.action.Commit?
    ensures Serial(Next(d, e), d.order) == Serial(d, d.order)
    ensures LastMissing(Next(d, e)) == LastMissing(d)
    ensures forall id :: CommitsOf(Next(d, e), id) == CommitsOf(d, id)
    ensures Next(d, e).registry == d.registry && Next(d, e).effects == d.effects
  {
    PlansStay(d, e);
    SerialDepends(d, Next(d, e), d.order);
    if d.order != [] {
      SerialDepends(d, Next(d, e), d.order[..|d.order| - 1]);
    }
  }

  /** With nothing committed yet, the last session's base is the whole database. */
  lemma BaseIsAll(d: Database, id: SessionId)
    requires Serialised(d) && RecordsEffects(d) && id in d.sessions && Inside(d.sessions[id]) && CommitsOf(d, id) == 0
    ensures LastMissing(d) == Missing(d.registry.Keys, d.sessions[id].plan)
  {
    assert Serial(d, d.order) == Serial(d, d.order[..|d.order| - 1]);
  }

  /** One session's step against what it found missing. */
  lemma QuietProgress(d: Database, e: Event, missing: seq<Migration>, commits: nat)
    requires Enabled(d, e) && !e.action.Acquire? && !e.action.Commit?
    requires Inside(Next(d, e).sessions[e.session])
    requires Progress(d.sessions[e.session], missing, commits)
    requires e.action.Read? ==> missing == Missing(d.registry.Keys, d.sessions[e.session].plan)
    ensures Progress(Next(d, e).sessions[e.session], missing, commits)
  {
  }

  lemma InsideBefore(d: Database, e: Event, id: SessionId)
    requires Enabled(d, e) && !e.action.Acquire? && id in d.sessions && Inside(Next(d, e).sessions[id])
    ensures Inside(d.sessions[id])
  {
  }

  lemma QuietInside(d: Database, e: Event)
    requires Serialised(d) && RecordsEffects(d) && Enabled(d, e) && !e.action.Acquire? && !e.action.Commit?
    ensures InsideIsLast(Next(d, e))
  {
    var d' := Next(d, e);
    PlansStay(d, e);
    QuietKeepsSerial(d, e);
    forall id | id in d'.sessions && Inside(d'.sessions[id])
      ensures d'.order != [] && d'.order[|d'.order| - 1] == id
      ensures Progress(d'.sessions[id], LastMissing(d'), CommitsOf(d', id))
    {
      InsideBefore(d, e, id);
      if id == e.session {
        if e.action.Read? {
          BaseIsAll(d, id);
        }
        QuietProgress(d, e, LastMissing(d), CommitsOf(d, id));
      }
    }
  }

  lemma PlanCovered(base: seq<Migration>, plan: seq<Migration>)
    ensures var all := base + Missing(Versions(base), plan); forall m | m in plan :: m.version in Versions(all)
  {
    var missing := Missing(Versions(base), plan);
    MissingAreMissing(Versions(base), plan);
    forall m | m in plan ensures m.version in Versions(base + missing) {
      if m.version in Versions(base) {
        var i :| 0 <= i < |base| && base[i].version == m.version;
        assert (base + missing)[i] == base[i];
      } else {
        var i :| 0 <= i < |missing| && missing[i] == m;
        assert (base + missing)[|base| + i] == m;
      }
    }
  }

  /** A session that has applied everything it found missing leaves its whole plan recorded. */
  lemma AllApplied(d: Database, id: SessionId)
    requires Serialised(d) && RecordsEffects(d) && id in d.sessions
    requires d.sessions[id].alive && d.sessions[id].phase == Leaving(false)
    ensures forall m | m in d.sessions[id].plan :: m.version in d.registry
  {
    var base := Serial(d, d.order[..|d.order| - 1]);
    assert Inside(d.sessions[id]);
    assert d.effects == base + LastMissing(d);
    PlanCovered(base, d.sessions[id].plan);
  }

  lemma QuietSuccess(d: Database, e: Event)
    requires Serialised(d) && RecordsEffects(d) && Enabled(d, e) && !e.action.Acquire? && !e.action.Commit?
    ensures SuccessMeansApplied(Next(d, e))
  {
    var d' := Next(d, e);
    PlansStay(d, e);
    QuietKeepsSerial(d, e);
    if e.action.Unlock? && !d.sessions[e.session].phase.failed {
      AllApplied(d, e.session);
    }
    forall id | id in d'.sessions && d'.sessions[id].phase == Done(true)
      ensures forall m | m in d'.sessions[id].plan :: m.version in d'.registry
    {
      if id != e.session || e.action.Lose? {
        assert d.sessions[id].phase == Done(true);
      }
    }
  }

  lemma CommitterIsLast(d: Database, e: Event)
    requires OrderSound(d) && InsideIsLast(d) && Enabled(d, e) && e.action.Commit?
    ensures d.order != [] && d.order[|d.order| - 1] == e.session
    ensures e.session !in d.order[..|d.order| - 1]
    ensures CommitsOf(d, e.session) < |LastMissing(d)|
    ensures d.sessions[e.session].phase.todo == LastMissing(d)[CommitsOf(d, e.session)..]
  {
    assert Inside(d.sessions[e.session]);
    var last := |d.order| - 1;
    forall i | 0 <= i < last ensures d.order[i] != d.order[last] {}
  }

  lemma OneMore<T>(s: seq<T>, c: nat)
    requires c < |s|
    ensures s[..c] + [s[c]] == s[..c + 1] && s[c..][0] == s[c] && s[c..][1..] == s[c + 1..]
  {
  }

  lemma OneMoreAfter<T>(before: seq<T>, s: seq<T>, c: nat, next: nat)
    requires next == c + 1 <= |s|
    ensures before + s[..c] + [s[c]] == before + s[..next]
  {
  }

  lemma CommitKeepsBase(d: Database, e: Event)
    requires OrderSound(d) && InsideIsLast(d) && Enabled(d, e) && e.action.Commit?
    ensures d.order != []
    ensures Serial(Next(d, e), d.order[..|d.order| - 1]) == Serial(d, d.order[..|d.order| - 1])
    ensures LastMissing(Next(d, e)) == LastMissing(d)
  {
    CommitterIsLast(d, e);
    PlansStay(d, e);
    SerialDepends(d, Next(d, e), d.order[..|d.order| - 1]);
  }

  lemma SerialByShare(d: Database, taken: nat)
    requires d.order != [] && d.order[|d.order| - 1] in d.sessions
    requires CommitsOf(d, d.order[|d.order| - 1]) == taken <= |LastMissing(d)|
    ensures Serial(d, d.order) == Serial(d, d.order[..|d.order| - 1]) + LastMissing(d)[..taken]
  {
  }

  lemma CommitAfter(d: Database, e: Event)
    requires AllStaged(d) && Enabled(d, e) && e.action.Commit?
    ensures var d', id := Next(d, e), e.session;
            && d'.order == d.order && d'.sessions.Keys == d.sessions.Keys
            && CommitsOf(d', id) == CommitsOf(d, id) + 1
            && d'.effects == d.effects + [d.sessions[id].phase.todo[0]]
            && (forall other | other in d.sessions && other != id :: d'.sessions[other] == d.sessions[other])
            && d'.sessions[id].phase in {Planned(d.sessions[id].phase.todo[1..]), Leaving(true)}
  {
    RegistryAfter(d, e);
  }

  lemma ShareExtends(d: Database, d': Database, c: nat, next: nat)
    requires d.order != [] && d'.order == d.order && next == c + 1 <= |LastMissing(d)|
    requires d.order[|d.order| - 1] in d.sessions && d.order[|d.order| - 1] in d'.sessions
    requires Serial(d', d.order[..|d.order| - 1]) == Serial(d, d.order[..|d.order| - 1])
    requires LastMissing(d') == LastMissing(d) && d.effects == Serial(d, d.order)
    requires CommitsOf(d, d.order[|d.order| - 1]) == c && CommitsOf(d', d.order[|d.order| - 1]) == next
    requires d'.effects == d.effects + [LastMissing(d)[c]]
    ensures Serial(d', d'.order) == d'.effects
  {
    SerialByShare(d, c);
    SerialByShare(d', next);
    OneMoreAfter(Serial(d, d.order[..|d.order| - 1]), LastMissing(d), c, next);
  }

  /** A commit extends the share of the session that obtained the lock last. */
  lemma CommitExtendsSerial(d: Database, e: Event)
    requires Serialised(d) && AllStaged(d) && Enabled(d, e) && e.action.Commit?
    ensures Serial(Next(d, e), d.order) == Next(d, e).effects
    ensures LastMissing(Next(d, e)) == LastMissing(d)
  {
    CommitterIsLast(d, e);
    CommitKeepsBase(d, e);
    CommitAfter(d, e);
    OneMore(LastMissing(d), CommitsOf(d, e.session));
    ShareExtends(d, Next(d, e), CommitsOf(d, e.session), CommitsOf(d, e.session) + 1);
  }

  lemma CommitInside(d: Database, d': Database, id: SessionId)
    requires InsideIsLast(d) && d'.order == d.order && d'.sessions.Keys == d.sessions.Keys && id in d.sessions
    requires forall other | other in d.sessions && other != id :: d'.sessions[other] == d.sessions[other]
    requires Inside(d.sessions[id]) && Working(d.sessions[id].phase) && d.sessions[id].phase.todo != []
    requires d'.sessions[id].phase in {Planned(d.sessions[id].phase.todo[1..]), Leaving(true)}
    requires CommitsOf(d', id) == CommitsOf(d, id) + 1 && LastMissing(d') == LastMissing(d)
    ensures InsideIsLast(d')
  {
    var c := CommitsOf(d, id);
    assert c < |LastMissing(d)|;
    OneMore(LastMissing(d), c);
    assert Progress(d'.sessions[id], LastMissing(d), c + 1);
  }

  lemma CommitSuccess(d: Database, e: Event)
    requires SuccessMeansApplied(d) && AllStaged(d) && Enabled(d, e) && e.action.Commit?
    ensures SuccessMeansApplied(Next(d, e))
  {
    RegistryAfter(d, e);
    forall id | id in d.sessions && Next(d, e).sessions[id].phase == Done(true)
      ensures forall m | m in d.sessions[id].plan :: m.version in d.registry
    {
      assert Next(d, e).sessions[id] == d.sessions[id];
    }
  }

  lemma CommitKeeps(d: Database, e: Event)
    requires Serialised(d) && AllStaged(d) && Enabled(d, e) && e.action.Commit?
    ensures Serialised(Next(d, e))
  {
    OrderSoundKept(d, e);
    CommitExtendsSerial(d, e);
    CommitAfter(d, e);
    CommitInside(d, Next(d, e), e.session);
    CommitSuccess(d, e);
  }

  lemma StepKeepsSerialised(d: Database, e: Event, lock: LockId)
    requires Serialised(d) && LocksHeld(d) && AllStaged(d) && RecordsEffects(d) && OneLock(d, lock) && Enabled(d, e)
    ensures Serialised(Next(d, e)) && OneLock(Next(d, e), lock)
  {
    PlansStay(d, e);
    if e.action.Acquire? {
      AcquireKeeps(d, e, lock);
    } else if e.action.Commit? {
      CommitKeeps(d, e);
    } else {
      OrderSoundKept(d, e);
      QuietKeepsSerial(d, e);
      QuietInside(d, e);
      QuietSuccess(d, e);
    }
  }

  /** Serialisability. For sessions sharing one lock, after any run the effects, and with them the registry,
      are those of a serial execution in the order the lock was obtained, in which each session applies the
      first of the migrations missing at that point, as many as it committed. No version is applied twice,
      and a session that returned nil has its whole plan recorded. */
  lemma {:induction false} RunsSerialise(start: Database, events: seq<Event>, lock: LockId, n: nat)
    requires Initial(start) && OneLock(start, lock) && Runs(start, events) && n <= |events|
    ensures var d := Exec(start, events[..n]);
            && Serialised(d) && OneLock(d, lock)
            && AllStaged(d) && RecordsEffects(d)
  {
    RegistryMatchesEffects(start, events, n);
    if n == 0 {
    } else {
      RunsSerialise(start, events, lock, n - 1);
      RegistryMatchesEffects(start, events, n - 1);
      Forward(start, events, n - 1, n);
      StepKeepsSerialised(Exec(start, events[..n - 1]), events[n - 1], lock);
    }
  }

  // ----- the serial execution by positions in the plans

  /** The effects from before, then one stretch for each session in `order`, up to its entry in `ends`: what its
      plan has at its positions in `at`, going through the plan once and passing over nothing but what was recorded
      when its turn came. */
  ghost predicate InTurns(d: Database, order: seq<SessionId>, effects: seq<Migration>, ends: seq<nat>,
                          at: seq<seq<nat>>) {
    && |at| == |order| && |ends| == |order| + 1
    && ends[0] == |d.base| && ends[|order|] == |effects| && d.base <= effects
    && forall i | 0 <= i < |order| :: Turn(d, order[i], effects, ends[i], ends[i + 1], at[i])
  }

  ghost predicate Turn(d: Database, id: SessionId, effects: seq<Migration>, from: nat, to: nat, at: seq<nat>) {
    && from <= to <= |effects| && id in d.sessions
    && InPlanOrder(Versions(effects[..from]), d.sessions[id].plan, at, effects[from..to])
  }

  lemma OneMoreTurn(d: Database, order: seq<SessionId>, base: seq<Migration>, ends: seq<nat>, at: seq<seq<nat>>,
                    id: SessionId, more: seq<Migration>, positions: seq<nat>)
    requires InTurns(d, order, base, ends, at) && id in d.sessions
    requires InPlanOrder(Versions(base), d.sessions[id].plan, positions, more)
    ensures InTurns(d, order + [id], base + more, ends + [|base + more|], at + [positions])
  {
    var effects, ends', at' := base + more, ends + [|base + more|], at + [positions];
    forall i | 0 <= i < |order + [id]| ensures Turn(d, (order + [id])[i], effects, ends'[i], ends'[i + 1], at'[i]) {
      if i < |order| {
        assert Turn(d, order[i], base, ends[i], ends[i + 1], at[i]);
        assert effects[..ends[i]] == base[..ends[i]] && effects[ends[i]..ends[i + 1]] == base[ends[i]..ends[i + 1]];
      } else {
        assert effects[..|base|] == base && effects[|base|..] == more;
      }
    }
  }

  lemma SerialNext(d: Database, order: seq<SessionId>, id: SessionId, all: seq<SessionId>)
    requires all == order + [id]
    ensures Serial(d, all) == Serial(d, order) + Share(d, Serial(d, order), id)
  {
    assert all[..|all| - 1] == order;
  }

  /** Where in its plan a session finds its share. */
  lemma ShareInPlanOrder(d: Database, base: seq<Migration>, id: SessionId) returns (at: seq<nat>)
    requires id in d.sessions
    ensures InPlanOrder(Versions(base), d.sessions[id].plan, at, Share(d, base, id))
  {
    var missing := Missing(Versions(base), d.sessions[id].plan);
    at := FirstInPlanOrder(Versions(base), d.sessions[id].plan, |Share(d, base, id)|, missing);
  }

  lemma {:induction false} SerialInTurns(d: Database, order: seq<SessionId>) returns (ends: seq<nat>, at: seq<seq<nat>>)
    requires forall id | id in order :: id in d.sessions
    ensures InTurns(d, order, Serial(d, order), ends, at)
  {
    if order == [] {
      ends, at := [|d.base|], [];
    } else {
      var before, id := order[..|order| - 1], order[|order| - 1];
      var base := Serial(d, before);
      var turns;
      ends, turns := SerialInTurns(d, before);
      var positions := ShareInPlanOrder(d, base, id);
      OneMoreTurn(d, before, base, ends, turns, id, Share(d, base, id), positions);
      assert order == before + [id];
      SerialNext(d, before, id, order);
      ends, at := ends + [|Serial(d, order)|], turns + [positions];
    }
  }

  /** So the effects of any run are what the sessions took from their plans, one after the other in the order they
      obtained the lock, each going forward through its plan. */
  lemma EffectsInTurns(start: Database, events: seq<Event>, lock: LockId, n: nat)
    returns (ends: seq<nat>, at: seq<seq<nat>>)
    requires Initial(start) && OneLock(start, lock) && Runs(start, events) && n <= |events|
    ensures var d := Exec(start, events[..n]); InTurns(d, d.order, d.effects, ends, at)
  {
    RunsSerialise(start, events, lock, n);
    ends, at := SerialInTurns(Exec(start, events[..n]), Exec(start, events[..n]).order);
  }

  // ----- the first error ends the work

  /** What a session is told is an error: a commit, an unlock, or any other call that fails. */
  predicate Errs(action: Action) {
    action == Commit(false) || action.Fail? || action.UnlockFails?
  }

  /** The session can only leave, and not with nil. */
  predicate GivenUp(p: Phase) {
    p == Leaving(true) || p.Closing? || p == Done(false)
  }

  lemma ErrorGivesUp(d: Database, e: Event)
    requires Enabled(d, e) && (Errs(e.action) || GivenUp(d.sessions[e.session].phase))
    ensures GivenUp(Next(d, e).sessions[e.session].phase)
  {
  }

  lemma GivenUpLeaves(d: Database, e: Event)
    requires Enabled(d, e) && GivenUp(d.sessions[e.session].phase)
    ensures e.action in {Unlock, UnlockFails(true), UnlockFails(false), Close, Lose}
  {
  }

  lemma GivenUpStays(d: Database, e: Event, id: SessionId)
    requires Enabled(d, e) && id in d.sessions
    requires GivenUp(d.sessions[id].phase) || (id == e.session && Errs(e.action))
    ensures id in Next(d, e).sessions && GivenUp(Next(d, e).sessions[id].phase)
  {
    if id == e.session {
      ErrorGivesUp(d, e);
    } else {
      PlansStay(d, e);
    }
  }

  /** After its first error a session applies nothing more, and it does not return nil. */
  lemma {:induction false} ErrorEndsWork(start: Database, events: seq<Event>, id: SessionId, i: nat, j: nat)
    requires Runs(start, events) && i < j <= |events| && events[i].session == id && Errs(events[i].action)
    ensures id in Exec(start, events[..j]).sessions && GivenUp(Exec(start, events[..j]).sessions[id].phase)
    ensures Exec(start, events[..j]).sessions[id].phase != Done(true)
    ensures j < |events| && events[j].session == id ==>
              events[j].action in {Unlock, UnlockFails(true), UnlockFails(false), Close, Lose}
    decreases j
  {
    var m := j - 1;
    if i < m {
      ErrorEndsWork(start, events, id, i, m);
    }
    assert EnabledAt(start, events, m);
    Forward(start, events, m, j);
    GivenUpStays(Exec(start, events[..m]), events[m], id);
    if j < |events| && events[j].session == id {
      assert EnabledAt(start, events, j);
      GivenUpLeaves(Exec(start, events[..j]), events[j]);
    }
  }

  // ----- nothing comes between a session's read and its release

  /** The session has left, or lost its connection: it will never be inside again. */
  predicate Over(s: Session) {
    !s.alive || s.phase.Closing? || s.phase.Done?
  }

  lemma {:induction false} OverStays(start: Database, events: seq<Event>, id: SessionId, i: nat, j: nat)
    requires Runs(start, events) && i <= j <= |events|
    requires id in Exec(start, events[..i]).sessions && Over(Exec(start, events[..i]).sessions[id])
    ensures id in Exec(start, events[..j]).sessions && Over(Exec(start, events[..j]).sessions[id])
    decreases j
  {
    if i == j {
    } else {
      OverStays(start, events, id, i, j - 1);
      Forward(start, events, j - 1, j);
    }
  }

  /** A session inside at event `j` was inside ever since its read at event `i`. */
  lemma InsideSinceRead(start: Database, events: seq<Event>, id: SessionId, i: nat, m: nat, j: nat)
    requires Runs(start, events) && i < m <= j <= |events| && events[i] == Event(id, Read)
    requires id in Exec(start, events[..j]).sessions && Inside(Exec(start, events[..j]).sessions[id])
    ensures id in Exec(start, events[..m]).sessions && Inside(Exec(start, events[..m]).sessions[id])
  {
    Forward(start, events, i, i + 1);
    OnceInsideOrOver(start, events, id, i + 1, m);
    if Over(Exec(start, events[..m]).sessions[id]) {
      OverStays(start, events, id, m, j);
    }
  }

  /** What the session's read, made when the effects were `before`, means in database `d`. */
  ghost predicate Current(d: Database, id: SessionId, before: seq<Migration>, missing: seq<Migration>) {
    && id in d.sessions
    && CommitsOf(d, id) <= |missing|
    && d.effects == before + missing[..CommitsOf(d, id)]
    && (Working(d.sessions[id].phase) ==> d.sessions[id].phase.todo == missing[CommitsOf(d, id)..])
  }

  lemma CommitKeepsCurrent(d: Database, e: Event, id: SessionId, before: seq<Migration>, missing: seq<Migration>)
    requires OrderSound(d) && InsideIsLast(d) && AllStaged(d) && Enabled(d, e) && e.action.Commit?
    requires id in d.sessions && Inside(d.sessions[id]) && Current(d, id, before, missing)
    ensures Current(Next(d, e), id, before, missing)
    ensures Working(Next(d, e).sessions[id].phase) || Next(d, e).sessions[id].phase.Leaving?
  {
    CommitterIsLast(d, e);
    assert d.order[|d.order| - 1] == id;
    CommitAfter(d, e);
    OneMoreAfter(before, missing, CommitsOf(d, id), CommitsOf(d, id) + 1);
    OneMore(missing, CommitsOf(d, id));
  }

  lemma StepKeepsCurrent(d: Database, e: Event, id: SessionId, before: seq<Migration>, missing: seq<Migration>)
    requires OrderSound(d) && InsideIsLast(d) && AllStaged(d) && Enabled(d, e) && id in d.sessions
    requires Inside(d.sessions[id]) && Inside(Next(d, e).sessions[id])
    requires Working(d.sessions[id].phase) || d.sessions[id].phase.Leaving?
    requires Current(d, id, before, missing)
    ensures Current(Next(d, e), id, before, missing)
    ensures Working(Next(d, e).sessions[id].phase) || Next(d, e).sessions[id].phase.Leaving?
  {
    if e.action.Commit? {
      CommitKeepsCurrent(d, e, id, before, missing);
    }
  }

  /** While a session is working, what it read stays current: between its read at event `i` and any later
      point at which it is still inside, exactly the first of the migrations it found missing have been
      committed, all by itself; other sessions have committed nothing. */
  lemma {:induction false} ReadStaysCurrent(start: Database, events: seq<Event>, lock: LockId, id: SessionId,
                                            i: nat, j: nat)
    requires Initial(start) && OneLock(start, lock) && Runs(start, events) && i < j <= |events|
    requires events[i] == Event(id, Read)
    requires id in Exec(start, events[..j]).sessions && Inside(Exec(start, events[..j]).sessions[id])
    ensures var d, d' := Exec(start, events[..i]), Exec(start, events[..j]);
            && id in d.sessions
            && Current(d', id, d.effects, Missing(d.registry.Keys, d.sessions[id].plan))
            && (Working(d'.sessions[id].phase) || d'.sessions[id].phase.Leaving?)
    decreases j
  {
    if i + 1 == j {
      RunsSerialise(start, events, lock, i);
      Forward(start, events, i, i + 1);
      assert Inside(Exec(start, events[..i]).sessions[id]);
    } else {
      InsideSinceRead(start, events, id, i, j - 1, j);
      ReadStaysCurrent(start, events, lock, id, i, j - 1);
      RunsSerialise(start, events, lock, j - 1);
      Forward(start, events, j - 1, j);
      var d := Exec(start, events[..i]);
      StepKeepsCurrent(Exec(start, events[..j - 1]), events[j - 1], id, d.effects,
                       Missing(d.registry.Keys, d.sessions[id].plan));
    }
  }

  lemma {:induction false} OnceInsideOrOver(start: Database, events: seq<Event>, id: SessionId, i: nat, j: nat)
    requires Runs(start, events) && i <= j <= |events|
    requires id in Exec(start, events[..i]).sessions
    requires Inside(Exec(start, events[..i]).sessions[id]) || Over(Exec(start, events[..i]).sessions[id])
    ensures id in Exec(start, events[..j]).sessions
    ensures Inside(Exec(start, events[..j]).sessions[id]) || Over(Exec(start, events[..j]).sessions[id])
    decreases j
  {
    if i == j {
    } else {
      OnceInsideOrOver(start, events, id, i, j - 1);
      Forward(start, events, j - 1, j);
    }
  }
}

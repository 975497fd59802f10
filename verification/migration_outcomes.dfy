/** The two models of `RunLocked` agree: what the calls of one connection can amount to is exactly what that
    session, running by itself, can do in the state machine of all sessions. */
module MigrationOutcomes {
  import opened MigrationVersion
  import opened MigrationPlan
  import opened MigrationCalls
  import opened MigrationSessions
  import opened MigrationSerial
  import opened MigrationSolo

  /** The connection of `s` is that of the session in `d`, which is about to start. */
  ghost predicate Connected(d: Database, id: SessionId, s: Link) {
    && CanStart(d, id)
    && Settled(s) && s.open && s.locks == 0 && s.registry == d.registry && s.effects == d.effects
  }

  /** The runner under `RunLocked`, with the session's plan. */
  ghost function RunnerOf(d: Database, id: SessionId, s: Link, limit: nat): Reply
    requires id in d.sessions
  {
    Running(ReadThenApply(d.sessions[id].plan), limit, s)
  }

  /** `now` shows what the connection's calls have led to, and nobody else has moved. */
  ghost predicate Shows(d: Database, now: Database, id: SessionId, r: Reply) {
    && id in d.sessions && OthersStay(d, now, id)
    && now.sessions[id].phase == Done(r.ok) && now.sessions[id].alive == r.state.open
    && now.registry == r.state.registry && now.effects == r.state.effects
    && now.holders == d.holders
  }

  // ----- every outcome is a run

  /** An idle session's connection is lost, which frees nothing of anybody else's. */
  lemma Loses(d: Database, id: SessionId)
    requires CanStart(d, id)
    ensures var s, lose := d.sessions[id], Event(id, Lose);
            && Runs(d, [lose])
            && Exec(d, [lose]) == d.(sessions := d.sessions[id := Session(s.plan, s.lock, Idle, false, [], [])])
  {
    FreedAgain(d, id);
    RunsStep(d, Event(id, Lose));
  }

  lemma NotLocked(d: Database, id: SessionId, s: Link) returns (events: seq<Event>)
    requires CanStart(d, id) && s.open && s.registry == d.registry && s.effects == d.effects && !Calling(s, 1).ok
    ensures ByOne(events, id) && Runs(d, events) && Shows(d, Exec(d, events), id, Calling(s, 1))
  {
    var lose, fail := Event(id, Lose), Event(id, Fail);
    assert Calling(s, 1) == Reply(false, After(s, 1, Survives(s)));
    if Survives(s) {
      events := [fail];
      RunsStep(d, fail);
      PlainStep(d, fail);
    } else {
      events := [lose, fail];
      Loses(d, id);
      RunsThen(d, [lose], fail);
      PlainStep(Exec(d, [lose]), fail);
      assert [lose] + [fail] == events;
    }
  }

  lemma TakesFirst(d: Database, id: SessionId, s: Link, k: nat)
    requires Connected(d, id, s) && k <= |MissingFor(d, id)|
    requires k > 0 ==> RunLands(s, MissingFor(d, id), k)
    requires forall i | 0 <= i < k :: !Contended(d, id, MissingFor(d, id)[i].version)
    ensures Takes(d, id, MissingFor(d, id)[..k])
  {
  }

  /** No open transaction of a session with another lock has inserted a version that the outcome records. */
  ghost predicate Unhindered(d: Database, id: SessionId, r: Reply) {
    forall i | |d.effects| <= i < |r.state.effects| :: !Contended(d, id, r.state.effects[i].version)
  }

  lemma NoneContended(d: Database, id: SessionId, r: Reply, todo: seq<Migration>, k: nat)
    requires Unhindered(d, id, r) && k <= |todo| && r.state.effects == d.effects + todo[..k]
    ensures forall i | 0 <= i < k :: !Contended(d, id, todo[i].version)
  {
    forall i | 0 <= i < k ensures !Contended(d, id, todo[i].version) {
      assert r.state.effects[|d.effects| + i] == todo[i];
    }
  }

  lemma RunTakes(d: Database, id: SessionId, s: Link, limit: nat) returns (k: nat)
    requires Connected(d, id, s) && limit > |MissingFor(d, id)| && Unhindered(d, id, RunnerOf(d, id, s, limit))
    ensures var r, todo := RunnerOf(d, id, s, limit), MissingFor(d, id);
            && k <= |todo| && Takes(d, id, todo[..k]) && r.state.effects == d.effects + todo[..k]
            && (r.ok ==> k == |todo|)
  {
    var r, todo := RunnerOf(d, id, s, limit), MissingFor(d, id);
    k := RunExact(d.sessions[id].plan, limit, s);
    NoneContended(d, id, r, todo, k);
    TakesFirst(d, id, s, k);
  }

  /** Every outcome of the runner under `RunLocked`, for every failure pattern, is a run of its session: with
      the same result, the same registry and effects, the connection alive or not as in the outcome, and the
      lock free again. An insert that another open transaction holds up does not get to be recorded. */
  lemma EveryOutcomeIsARun(d: Database, id: SessionId, s: Link, limit: nat) returns (events: seq<Event>)
    requires Connected(d, id, s) && limit > |MissingFor(d, id)| && Unhindered(d, id, RunnerOf(d, id, s, limit))
    ensures ByOne(events, id) && Runs(d, events)
    ensures Shows(d, Exec(d, events), id, RunnerOf(d, id, s, limit))
  {
    var work := ReadThenApply(d.sessions[id].plan);
    var r := Running(work, limit, s);
    if !Calling(s, 1).ok {
      events := NotLocked(d, id, s);
    } else {
      var k := RunTakes(d, id, s, limit);
      RunReleases(work, limit, s);
      var exit := if r.ok then Finishes else if r.state.open then GivesUp else BreaksOff;
      Solo(d, id, k, exit);
      events := SoloEvents(id, k, exit);
      RecordsUnique(Exec(d, events).registry, r.state.registry, r.state.effects);
    }
  }

  // ----- every run is an outcome

  function Fines(n: nat): seq<Fault> {
    seq(n, i => Fine)
  }

  lemma FinesThen(n: nat, k: nat, more: seq<Fault>)
    ensures AllFine(Fines(n + k) + more, n) && Rest(Fines(n + k) + more, n) == Fines(k) + more
  {
  }

  /** What is left of the session once its work stands at `s'` with `rest` still to apply. */
  ghost function Closing(s': Link, rest: seq<Migration>, left: nat): Reply {
    var w := Performing(ApplyAll(rest), left, s');
    Reply(w.ok && Releasing(w.state).ok, Releasing(w.state).state)
  }

  /** What the runner does once it has read the registry. */
  lemma RunAfterReading(plan: seq<Migration>, limit: nat, s: Link, todo: seq<Migration>, s3: Link, left: nat)
    requires Settled(s) && s.open && AllFine(s.faults, |s.registry| + 4) && limit == left + 1
    requires todo == Missing(s.registry.Keys, plan) && s3 == Taken(s, |s.registry| + 4).(locks := s.locks + 1)
    ensures Running(ReadThenApply(plan), limit, s) == Closing(s3, todo, left)
  {
    var n, s2 := |s.registry|, Taken(s, 2).(locks := s.locks + 1);
    FineParts(s.faults, 2, n + 2);
    RestCalls(s.faults, 2, n + 2);
    RunsThrough(ReadThenApply(plan), limit, s);
    CallingExact(s2, n + 2);
    assert Reading(s2) == Reply(true, Taken(s, n + 4).(locks := s.locks + 1));
    ReadThenApplyGoesOn(plan, limit, s2, left);
  }

  lemma OneApplies(s: Link, m: Migration)
    requires Settled(s) && s.open && AllFine(s.faults, 4) && Recordable(s.registry.Keys, [m])
    ensures var s' := Taken(s, 4).(registry := s.registry[m.version := m], effects := s.effects + [m]);
            Applying(s, m) == Reply(true, s') && Settled(s')
  {
    ApplyExact(s, m);
    assert [m][..1] == [m];
  }

  lemma FirstAndRest(todo: seq<Migration>, recorded: set<UInt64>, faults: seq<Fault>, k: nat, j: nat)
    requires k <= j < |todo| && AllFine(faults, 4 * k + 4) && Recordable(recorded, todo[..j + 1])
    ensures AllFine(faults, 4) && Recordable(recorded, [todo[0]])
    ensures AllFine(Rest(faults, 4), 4 * k) && Recordable(recorded + {todo[0].version}, todo[1..][..j])
  {
    assert todo[..j + 1] == [todo[0]] + todo[1..][..j];
    RecordableParts(recorded, todo[0], todo[1..][..j]);
    FineParts(faults, 4, 4 * k);
  }

  /** The first `k` migrations, applied from `s` on, succeed. */
  predicate GoesWell(s: Link, todo: seq<Migration>, k: nat)
    requires k <= |todo|
    decreases k
  {
    k == 0 || (Applying(s, todo[0]).ok && GoesWell(Applying(s, todo[0]).state, todo[1..], k - 1))
  }

  function StateAfter(s: Link, todo: seq<Migration>, k: nat): Link
    requires k <= |todo|
    decreases k
  {
    if k == 0 then s else StateAfter(Applying(s, todo[0]).state, todo[1..], k - 1)
  }

  /** After `k` migrations that succeed the runner goes on with the rest. */
  lemma {:induction false} GoesOnAfter(s: Link, todo: seq<Migration>, k: nat, limit: nat, left: nat)
    requires k <= |todo| && limit == k + left && GoesWell(s, todo, k)
    ensures Performing(ApplyAll(todo), limit, s) == Performing(ApplyAll(todo[k..]), left, StateAfter(s, todo, k))
    decreases k
  {
    if k == 0 {
      assert todo[0..] == todo;
    } else {
      GoesOnAfter(Applying(s, todo[0]).state, todo[1..], k - 1, limit - 1, left);
      assert todo[1..][k - 1..] == todo[k..];
    }
  }

  /** `s'` is what `s` becomes by the first `k` migrations, and what follows up to `j` can still be recorded. */
  ghost predicate Midway(s: Link, todo: seq<Migration>, k: nat, j: nat, s': Link)
    requires k <= j <= |todo|
  {
    && Settled(s') && s'.open && s'.locks == s.locks && s'.faults == Rest(s.faults, 4 * k)
    && s'.effects == s.effects + todo[..k] && Recordable(s'.registry.Keys, todo[k..j])
  }

  lemma MidwayMore(s: Link, todo: seq<Migration>, k: nat, j: nat, next: Link, s': Link)
    requires k <= j < |todo| && Midway(next, todo[1..], k, j, s')
    requires next.locks == s.locks && next.faults == Rest(s.faults, 4) && next.effects == s.effects + [todo[0]]
    ensures Midway(s, todo, k + 1, j + 1, s')
  {
    RestCalls(s.faults, 4, 4 * k);
    Slices(s.effects, todo, k, j);
  }

  lemma Slices(effects: seq<Migration>, todo: seq<Migration>, k: nat, j: nat)
    requires k <= j < |todo|
    ensures effects + [todo[0]] + todo[1..][..k] == effects + todo[..k + 1]
    ensures todo[1..][k..j] == todo[k + 1..j + 1]
  {
    assert todo[..k + 1] == [todo[0]] + todo[1..][..k];
  }

  lemma FirstGoes(s: Link, todo: seq<Migration>, k: nat, j: nat)
    requires Settled(s) && s.open && k <= j < |todo|
    requires AllFine(s.faults, 4 * k + 4) && Recordable(s.registry.Keys, todo[..j + 1])
    ensures var r := Applying(s, todo[0]);
            && r.ok && Settled(r.state) && r.state.open && r.state.locks == s.locks
            && r.state.faults == Rest(s.faults, 4) && r.state.effects == s.effects + [todo[0]]
            && AllFine(r.state.faults, 4 * k) && Recordable(r.state.registry.Keys, todo[1..][..j])
  {
    FirstAndRest(todo, s.registry.Keys, s.faults, k, j);
    OneApplies(s, todo[0]);
    assert s.registry[todo[0].version := todo[0]].Keys == s.registry.Keys + {todo[0].version};
  }

  lemma OneMoreWell(s: Link, todo: seq<Migration>, k: nat, j: nat, r: Reply, k': nat, j': nat)
    requires k <= j < |todo| && k' == k + 1 && j' == j + 1 && r == Applying(s, todo[0]) && r.ok
    requires r.state.locks == s.locks && r.state.faults == Rest(s.faults, 4) && r.state.effects == s.effects + [todo[0]]
    requires GoesWell(r.state, todo[1..], k) && Midway(r.state, todo[1..], k, j, StateAfter(r.state, todo[1..], k))
    ensures GoesWell(s, todo, k') && Midway(s, todo, k', j', StateAfter(s, todo, k'))
  {
    MidwayMore(s, todo, k, j, r.state, StateAfter(r.state, todo[1..], k));
  }

  /** Migrations that can be recorded and whose calls succeed are applied. */
  lemma {:induction false} FirstGoWell(s: Link, todo: seq<Migration>, k: nat, j: nat)
    requires Settled(s) && s.open && k <= j <= |todo|
    requires AllFine(s.faults, 4 * k) && Recordable(s.registry.Keys, todo[..j])
    ensures GoesWell(s, todo, k) && Midway(s, todo, k, j, StateAfter(s, todo, k))
    decreases k
  {
    if k == 0 {
      assert s.effects + todo[..0] == s.effects && todo[0..j] == todo[..j];
    } else {
      var r, i, h := Applying(s, todo[0]), k - 1, j - 1;
      FirstGoes(s, todo, i, h);
      FirstGoWell(r.state, todo[1..], i, h);
      OneMoreWell(s, todo, i, h, r, k, j);
    }
  }

  lemma ListReaches(s: Link, todo: seq<Migration>, k: nat, j: nat, more: seq<Fault>)
    requires Settled(s) && s.open && k <= j <= |todo| && Recordable(s.registry.Keys, todo[..j])
    requires s.faults == Fines(4 * k) + more
    ensures GoesWell(s, todo, k) && Midway(s, todo, k, j, StateAfter(s, todo, k)) && Rest(s.faults, 4 * k) == more
  {
    FinesThen(4 * k, 0, more);
    assert Fines(0) + more == more && Fines(4 * k + 0) == Fines(4 * k);
    FirstGoWell(s, todo, k, j);
  }

  lemma RunIsClosing(plan: seq<Migration>, limit: nat, s: Link, s3: Link, todo: seq<Migration>, k: nat, left: nat)
    requires Settled(s) && s.open && AllFine(s.faults, |s.registry| + 4) && limit == 1 + k + left && |todo| >= k
    requires todo == Missing(s.registry.Keys, plan) && s3 == Taken(s, |s.registry| + 4).(locks := s.locks + 1)
    requires GoesWell(s3, todo, k)
    ensures Running(ReadThenApply(plan), limit, s) == Closing(StateAfter(s3, todo, k), todo[k..], left)
  {
    var l := k + left;
    RunAfterReading(plan, limit, s, todo, s3, l);
    GoesOnAfter(s3, todo, k, l, left);
  }

  /** The runner after `k` migrations, the calls so far having succeeded. */
  lemma RunReaches(plan: seq<Migration>, limit: nat, s: Link, s3: Link, todo: seq<Migration>, k: nat, j: nat,
                   left: nat, more: seq<Fault>)
    requires Settled(s) && s.open && todo == Missing(s.registry.Keys, plan) && limit == 1 + k + left
    requires s3 == Taken(s, |s.registry| + 4).(locks := s.locks + 1)
    requires k <= j <= |todo| && Recordable(s.registry.Keys, todo[..j])
    requires s.faults == Fines(|s.registry| + 4 + 4 * k) + more
    ensures Midway(s3, todo, k, j, StateAfter(s3, todo, k)) && StateAfter(s3, todo, k).faults == more
    ensures Running(ReadThenApply(plan), limit, s) == Closing(StateAfter(s3, todo, k), todo[k..], left)
  {
    FinesThen(|s.registry| + 4, 4 * k, more);
    ListReaches(s3, todo, k, j, more);
    RunIsClosing(plan, limit, s, s3, todo, k, left);
  }

  /** The next call costs the connection. */
  lemma BreaksHere(s': Link, rest: seq<Migration>, left: nat)
    requires Settled(s') && s'.open && s'.locks > 0 && s'.faults == [Error(false, true)] && left >= |rest|
    ensures var r := Closing(s', rest, left);
            !r.ok && !r.state.open && r.state.effects == s'.effects
  {
    if rest != [] {
      ApplyAllGoesOn(rest, left, s', Applying(s', rest[0]));
    }
  }

  /** The next migration's script fails, and the connection survives. */
  lemma FailsHere(s': Link, rest: seq<Migration>, left: nat)
    requires Settled(s') && s'.open && s'.locks > 0 && s'.faults == [Fine, Error(false, false)]
    requires left >= |rest| && rest != []
    ensures var r := Closing(s', rest, left);
            !r.ok && r.state.open && r.state.effects == s'.effects
  {
    ApplyAllGoesOn(rest, left, s', Applying(s', rest[0]));
    var f := s'.faults;
    assert Call(f, 0) == Fine && Call(f, 1) == Error(false, false) && Call(f, 2) == Fine;
    RestCalls(f, 1, 0);
    RestCalls(f, 1, 1);
    RestCalls(f, 1, 2);
    RestCalls(f, 3, 0);
  }

  /** The last commit reports an error although it took effect, and the connection survives. */
  lemma UnsureHere(s': Link, m: Migration, left: nat)
    requires Settled(s') && s'.open && s'.locks > 0 && s'.faults == Fines(3) + [Error(true, false)]
    requires left >= 1 && Recordable(s'.registry.Keys, [m])
    ensures var r := Closing(s', [m], left);
            !r.ok && r.state.open && r.state.effects == s'.effects + [m]
  {
    ApplyAllGoesOn([m], left, s', Applying(s', m));
    RecordableOne(s'.registry.Keys, m);
    FirstFour(s'.faults);
    RestCalls(s'.faults, 4, 0);
  }

  /** The registry cannot be created, and the connection survives. */
  lemma NoRegistry(work: Work, limit: nat, s: Link)
    requires Settled(s) && s.open && s.faults == [Fine, Error(false, false)]
    ensures var r := Running(work, limit, s);
            !r.ok && r.state.open && r.state.effects == s.effects
  {
    var s1 := Taken(s, 1).(locks := s.locks + 1);
    CallingExact(s, 1);
    assert Call(s.faults, 0) == Fine && s1.faults == [Error(false, false)];
    assert Calling(s1, 1) == Reply(false, Taken(s1, 1));
    assert Taken(s1, 1).faults == [];
  }

  /** How the calls can end so that the session ends like this: `k` of the `m` missing migrations recorded, with
      `n` rows in the registry before. */
  function FaultsFor(n: nat, m: nat, k: nat, ok: bool, open: bool): seq<Fault> {
    if ok then []
    else if !open then Fines(n + 4 + 4 * k) + [Error(false, true)]
    else if k < m then Fines(n + 4 + 4 * k) + [Fine, Error(false, false)]
    else if k > 0 then Fines(n + 4 + 4 * (k - 1)) + (Fines(3) + [Error(true, false)])
    else [Fine, Error(false, false)]
  }

  /** The session ends as asked for. */
  ghost predicate EndsSo(r: Reply, ok: bool, open: bool, effects: seq<Migration>) {
    r.ok == ok && r.state.open == open && r.state.effects == effects
  }

  lemma Succeeding(plan: seq<Migration>, limit: nat, s: Link, todo: seq<Migration>)
    requires Settled(s) && s.open && todo == Missing(s.registry.Keys, plan) && limit > |todo|
    requires Recordable(s.registry.Keys, todo) && s.faults == []
    ensures EndsSo(Running(ReadThenApply(plan), limit, s), true, true, s.effects + todo)
  {
    var k := RunExact(plan, limit, s);
    RunReleases(ReadThenApply(plan), limit, s);
    assert todo[..|todo|] == todo;
  }

  lemma Breaking(plan: seq<Migration>, limit: nat, s: Link, todo: seq<Migration>, k: nat)
    requires Settled(s) && s.open && todo == Missing(s.registry.Keys, plan) && limit > |todo| >= k
    requires Recordable(s.registry.Keys, todo[..k]) && s.faults == FaultsFor(|s.registry|, |todo|, k, false, false)
    ensures EndsSo(Running(ReadThenApply(plan), limit, s), false, false, s.effects + todo[..k])
  {
    var s3, left := Taken(s, |s.registry| + 4).(locks := s.locks + 1), limit - 1 - k;
    RunReaches(plan, limit, s, s3, todo, k, k, left, [Error(false, true)]);
    BreaksHere(StateAfter(s3, todo, k), todo[k..], left);
  }

  lemma Failing(plan: seq<Migration>, limit: nat, s: Link, todo: seq<Migration>, k: nat)
    requires Settled(s) && s.open && todo == Missing(s.registry.Keys, plan) && limit > |todo| > k
    requires Recordable(s.registry.Keys, todo[..k]) && s.faults == FaultsFor(|s.registry|, |todo|, k, false, true)
    ensures EndsSo(Running(ReadThenApply(plan), limit, s), false, true, s.effects + todo[..k])
  {
    var s3, left := Taken(s, |s.registry| + 4).(locks := s.locks + 1), limit - 1 - k;
    RunReaches(plan, limit, s, s3, todo, k, k, left, [Fine, Error(false, false)]);
    FailsHere(StateAfter(s3, todo, k), todo[k..], left);
  }

  lemma Unsure(plan: seq<Migration>, limit: nat, s: Link, todo: seq<Migration>, k: nat)
    requires Settled(s) && s.open && todo == Missing(s.registry.Keys, plan) && limit > |todo| == k + 1
    requires Recordable(s.registry.Keys, todo) && s.faults == FaultsFor(|s.registry|, |todo|, k + 1, false, true)
    ensures EndsSo(Running(ReadThenApply(plan), limit, s), false, true, s.effects + todo)
  {
    var s3, left := Taken(s, |s.registry| + 4).(locks := s.locks + 1), limit - 1 - k;
    assert todo[..k + 1] == todo && todo[k..] == [todo[k]] && todo[k..k + 1] == [todo[k]];
    assert todo == todo[..k] + [todo[k]];
    RunReaches(plan, limit, s, s3, todo, k, k + 1, left, Fines(3) + [Error(true, false)]);
    UnsureHere(StateAfter(s3, todo, k), todo[k], left);
  }

  lemma ApplyAllGoesOn(todo: seq<Migration>, limit: nat, s: Link, next: Reply)
    requires todo != [] && limit > 0 && next == Applying(s, todo[0])
    ensures Performing(ApplyAll(todo), limit, s)
            == if next.ok then Performing(ApplyAll(todo[1..]), limit - 1, next.state) else Reply(false, next.state)
  {
  }

  /** The session has neither taken nor freed a lock of anybody else. */
  ghost predicate OthersHold(d: Database, now: Database, id: SessionId) {
    && (forall l | l in d.holders :: l in now.holders && now.holders[l] == d.holders[l])
    && (forall l | l in now.holders && now.holders[l] != id :: l in d.holders)
  }

  lemma {:induction false} HoldersAlong(d: Database, events: seq<Event>, id: SessionId, n: nat)
    requires CanStart(d, id) && ByOne(events, id) && Runs(d, events) && n <= |events|
    ensures OthersHold(d, Exec(d, events[..n]), id)
  {
    if n == 0 {
    } else {
      HoldersAlong(d, events, id, n - 1);
      Forward(d, events, n - 1, n);
      HolderStep(d, Exec(d, events[..n - 1]), events[n - 1]);
    }
  }

  lemma HolderStep(d: Database, now: Database, e: Event)
    requires CanStart(d, e.session) && OthersHold(d, now, e.session) && Enabled(now, e)
    ensures OthersHold(d, Next(now, e), e.session)
  {
    forall l | l in d.holders ensures d.holders[l] != e.session {
    }
  }

  lemma DoneHoldsNothing(d: Database, now: Database, id: SessionId)
    requires Good(now) && OthersHold(d, now, id) && id in now.sessions && now.sessions[id].phase.Done?
    ensures now.holders == d.holders
  {
    assert HoldersLive(now);
    forall l | l in now.holders ensures now.holders[l] != id && l in d.holders {
    }
    forall l | l in d.holders ensures l in now.holders && now.holders[l] == d.holders[l] {
    }
    assert forall l :: l in now.holders <==> l in d.holders;
  }

  /** What the session's own events have led to when it is done. */
  lemma DoneSo(d: Database, events: seq<Event>, id: SessionId) returns (k: nat)
    requires CanStart(d, id) && ByOne(events, id) && Runs(d, events)
    requires id in Exec(d, events).sessions && Exec(d, events).sessions[id].phase.Done?
    ensures var now, todo := Exec(d, events), MissingFor(d, id);
            && Good(now) && OthersStay(d, now, id) && now.holders == d.holders
            && k <= |todo| && Takes(d, id, todo[..k]) && now.effects == d.effects + todo[..k]
            && (now.sessions[id].phase == Done(true) ==> k == |todo|)
  {
    var n := |events|;
    assert events[..n] == events;
    GoodAlong(d, events, n);
    TracksAlong(d, events, id, n);
    HoldersAlong(d, events, id, n);
    DoneHoldsNothing(d, Exec(d, events), id);
    k := CommitsOf(Exec(d, events), id);
  }

  lemma FaultsExist(plan: seq<Migration>, limit: nat, s: Link, todo: seq<Migration>, k: nat, ok: bool, open: bool)
    requires Settled(s) && s.open && todo == Missing(s.registry.Keys, plan) && limit > |todo| >= k
    requires Recordable(s.registry.Keys, todo[..k]) && (ok ==> open && k == |todo|)
    requires s.faults == FaultsFor(|s.registry|, |todo|, k, ok, open)
    ensures EndsSo(Running(ReadThenApply(plan), limit, s), ok, open, s.effects + todo[..k])
  {
    assert k == |todo| ==> todo[..k] == todo;
    if ok {
      Succeeding(plan, limit, s, todo);
    } else if !open {
      Breaking(plan, limit, s, todo, k);
    } else if k < |todo| {
      Failing(plan, limit, s, todo, k);
    } else if k > 0 {
      Unsure(plan, limit, s, todo, k - 1);
    } else {
      NoRegistry(ReadThenApply(plan), limit, s);
      assert s.effects + todo[..k] == s.effects;
    }
  }

  /** Conversely, every run of the session by itself that brings it to its end is the outcome of some failure
      pattern: with the same result, registry and effects, and the connection as the run leaves it. What is
      left out is that the connection of a session that has returned nil is lost later. */
  lemma EveryRunIsAnOutcome(d: Database, id: SessionId, events: seq<Event>, s: Link, limit: nat)
    returns (faults: seq<Fault>)
    requires Connected(d, id, s) && limit > |MissingFor(d, id)| && ByOne(events, id) && Runs(d, events)
    requires id in Exec(d, events).sessions && Exec(d, events).sessions[id].phase.Done?
    requires Succeeds(Exec(d, events), id) ==> Exec(d, events).sessions[id].alive
    ensures Shows(d, Exec(d, events), id, RunnerOf(d, id, s.(faults := faults), limit))
  {
    var now, plan, todo := Exec(d, events), d.sessions[id].plan, MissingFor(d, id);
    var k := DoneSo(d, events, id);
    var ok, open := now.sessions[id].phase.ok, now.sessions[id].alive;
    faults := FaultsFor(|s.registry|, |todo|, k, ok, open);
    var s' := s.(faults := faults);
    FaultsExist(plan, limit, s', todo, k, ok, open);
    RunReleases(ReadThenApply(plan), limit, s');
    RecordsUnique(now.registry, Running(ReadThenApply(plan), limit, s').state.registry, now.effects);
  }
}

/** What holds along every run of the outbox: conservation of messages and attempts, unique receipts that
    go stale for good, and the separation of deliveries in time. */
module OutboxHistory {
  import opened Sql
  import opened OutboxStore
  import opened OutboxLog
  import opened Search

  // ----- the effect of one statement on one row

  datatype Effect = Nothing | Inserted | Claimed | Reclaimed | Released | Removed

  function Lookup(t: Table, id: Id): Option<Message> {
    if id in t then Some(t[id]) else None
  }

  /** `Claimed` takes a free row, `Reclaimed` one whose lease ran out. */
  ghost function EffectOn(lt: Collation, t: Table, s: Statement, id: Id): Effect {
    match s
    case Insert(added, content, _) => if id == added && id !in t && Storable(id, content) then Inserted else Nothing
    case Claim(_, now, _, limit, skip, _) =>
      if !Granted(lt, t, s) || id !in Ids(Candidates(lt, t, now, skip, limit)) then Nothing
      else if id in t && t[id].owner.None? then Claimed
      else Reclaimed
    case Complete(owner, receipt) => if id in Matching(t, owner, receipt) then Removed else Nothing
    case Release(owner, receipt, _) => if id in Matching(t, owner, receipt) then Released else Nothing
  }

  /** Which rows each effect leads from and to. */
  ghost predicate Moves(row: Option<Message>, e: Effect, s: Statement, id: Id, row': Option<Message>) {
    match e
    case Nothing => row' == row
    case Inserted => && s.Insert? && s.id == id && row.None? && Storable(id, s.content)
                     && row' == Some(Message(s.content, s.now, s.now, None, None, None, 0))
    case Claimed => && s.Claim? && row.Some? && row.value.owner.None? && Eligible(row.value, s.now)
                    && Fits(s.owner, MAX_TEXT) && Fits(s.uuid(id), MAX_TEXT)
                    && row' == Some(ClaimedRow(row.value, s.owner, s.lease, s.uuid(id)))
    case Reclaimed => && s.Claim? && row.Some? && row.value.owner.Some? && Eligible(row.value, s.now)
                      && Fits(s.owner, MAX_TEXT) && Fits(s.uuid(id), MAX_TEXT)
                      && row' == Some(ClaimedRow(row.value, s.owner, s.lease, s.uuid(id)))
    case Released => && s.Release? && row.Some? && Held(row.value, s.owner, s.receipt)
                     && row' == Some(ReleasedRow(row.value, s.availableAt))
    case Removed => s.Complete? && row.Some? && Held(row.value, s.owner, s.receipt) && row'.None?
  }

  lemma EffectMoves(lt: Collation, t: Table, s: Statement, id: Id)
    ensures Moves(Lookup(t, id), EffectOn(lt, t, s, id), s, id, Lookup(Execute(lt, t, s).0, id))
  {
    if Granted(lt, t, s) {
      var c := Candidates(lt, t, s.now, s.skip, s.limit);
      if id in Ids(c) {
        var p :| p in c && p.id == id;
        assert p in Waiting(t, s.now, s.skip);
      }
    }
  }

  // ----- rows along a run

  ghost function RowAfter(lt: Collation, log: seq<Statement>, id: Id): Option<Message> {
    Lookup(Replay(lt, log), id)
  }

  ghost function EffectAt(lt: Collation, log: seq<Statement>, id: Id, i: nat): Effect
    requires i < |log|
  {
    EffectOn(lt, Replay(lt, log[..i]), log[i], id)
  }

  lemma MovesAt(lt: Collation, log: seq<Statement>, id: Id, i: nat, j: nat)
    requires j == i + 1 <= |log|
    ensures Moves(RowAfter(lt, log[..i], id), EffectAt(lt, log, id, i), log[i], id, RowAfter(lt, log[..j], id))
  {
    Advance(lt, log, i, j);
    EffectMoves(lt, Replay(lt, log[..i]), log[i], id);
  }

  // ----- conservation

  ghost function Count(lt: Collation, log: seq<Statement>, id: Id, e: Effect, n: nat): nat
    requires n <= |log|
  {
    if n == 0 then 0 else Count(lt, log, id, e, n - 1) + if EffectAt(lt, log, id, n - 1) == e then 1 else 0
  }

  /** Every message inserted is either still stored or was completed exactly once. */
  lemma {:induction false} MessagesConserved(lt: Collation, log: seq<Statement>, id: Id, n: nat)
    requires n <= |log|
    ensures Count(lt, log, id, Inserted, n)
            == Count(lt, log, id, Removed, n) + (if RowAfter(lt, log[..n], id).Some? then 1 else 0)
  {
    if n == 0 {
    } else {
      MessagesConserved(lt, log, id, n - 1);
      MovesAt(lt, log, id, n - 1, n);
    }
  }

  /** What has happened to a message since it was inserted. */
  datatype Life = Life(content: Content, occurredAt: Time, claims: nat, releases: nat, reclaims: nat)

  function Live(life: Option<Life>, e: Effect, s: Statement): Option<Life> {
    if e.Inserted? && s.Insert? then Some(Life(s.content, s.now, 0, 0, 0))
    else if e.Removed? || life.None? then None
    else
      match e
      case Claimed => Some(life.value.(claims := life.value.claims + 1))
      case Reclaimed => Some(life.value.(claims := life.value.claims + 1, reclaims := life.value.reclaims + 1))
      case Released => Some(life.value.(releases := life.value.releases + 1))
      case _ => life
  }

  ghost function LifeOf(lt: Collation, log: seq<Statement>, id: Id, n: nat): Option<Life>
    requires n <= |log|
  {
    if n == 0 then None else Live(LifeOf(lt, log, id, n - 1), EffectAt(lt, log, id, n - 1), log[n - 1])
  }

  /** The stored row against its life. */
  ghost predicate Reflects(row: Option<Message>, life: Option<Life>) {
    && (row.Some? <==> life.Some?)
    && (row.Some? ==>
          var m, l := row.value, life.value;
          && m.content == l.content && m.occurredAt == l.occurredAt
          && (m.owner.None? <==> m.receipt.None?)
          && (m.owner.None? <==> m.leaseUntil.None?)
          && m.attempt == l.claims
          && m.attempt == l.releases + l.reclaims + (if m.owner.Some? then 1 else 0))
  }

  lemma ReflectionKept(row: Option<Message>, life: Option<Life>, e: Effect, s: Statement, id: Id, row': Option<Message>)
    requires Reflects(row, life) && Moves(row, e, s, id, row')
    ensures Reflects(row', Live(life, e, s))
  {
  }

  /** A stored message is unchanged since its insertion, meets the CHECK constraints, and its attempt
      counts its claims: those released, those whose lease ran out, and the one outstanding. */
  lemma {:induction false} AttemptsConserved(lt: Collation, log: seq<Statement>, id: Id, n: nat)
    requires n <= |log|
    ensures Reflects(RowAfter(lt, log[..n], id), LifeOf(lt, log, id, n))
    ensures RowAfter(lt, log[..n], id).Some? ==> Checks(id, RowAfter(lt, log[..n], id).value)
  {
    if n == 0 {
    } else {
      AttemptsConserved(lt, log, id, n - 1);
      MovesAt(lt, log, id, n - 1, n);
      ReflectionKept(RowAfter(lt, log[..n - 1], id), LifeOf(lt, log, id, n - 1), EffectAt(lt, log, id, n - 1),
                     log[n - 1], id, RowAfter(lt, log[..n], id));
    }
  }

  /** Every delivery carries the content its message was inserted with. */
  lemma DeliveredAsInserted(lt: Collation, log: seq<Statement>, i: nat, p: nat)
    requires i < |log| && log[i].Claim?
    requires ReplyAt(lt, log, i).Delivered? && p < |ReplyAt(lt, log, i).deliveries|
    ensures var d := ReplyAt(lt, log, i).deliveries[p];
            && LifeOf(lt, log, d.id, i).Some?
            && var life := LifeOf(lt, log, d.id, i).value;
               d == Delivery(d.id, life.content, life.occurredAt, log[i].uuid(d.id), life.claims + 1)
  {
    var t, s := Replay(lt, log[..i]), log[i];
    var c := Candidates(lt, t, s.now, s.skip, s.limit);
    assert c[p] in c && c[p] in Waiting(t, s.now, s.skip) && c[p].id in Ids(c);
    AttemptsConserved(lt, log, c[p].id, i);
  }

  // ----- receipts

  ghost predicate DistinctReceipts(t: Table, issued: set<string>) {
    && (forall id | id in t && t[id].receipt.Some? :: t[id].receipt.value in issued)
    && (forall id, id' | id in t && id' in t && id != id' && t[id].receipt.Some? :: t[id].receipt != t[id'].receipt)
  }

  lemma DistinctKept(lt: Collation, t: Table, issued: set<string>, s: Statement)
    requires DistinctReceipts(t, issued) && FreshReceipts(lt, t, issued, s)
    ensures DistinctReceipts(Execute(lt, t, s).0, issued + Generated(lt, t, s))
  {
    var t' := Execute(lt, t, s).0;
    if Granted(lt, t, s) {
      var ids := Ids(Candidates(lt, t, s.now, s.skip, s.limit));
      assert t'.Keys == t.Keys;
      assert forall id | id in t' :: t'[id].receipt == if id in ids then Some(s.uuid(id)) else t[id].receipt;
    }
  }

  /** In every reachable table no two rows share a receipt. */
  lemma {:induction false} ReceiptsDistinct(lt: Collation, log: seq<Statement>)
    requires Legal(lt, log)
    ensures DistinctReceipts(Replay(lt, log), Issued(lt, log))
  {
    if log == [] {
    } else {
      var before := log[..|log| - 1];
      LegalPrefix(lt, log, |log| - 1);
      assert FreshAt(lt, log, |log| - 1);
      ReceiptsDistinct(lt, before);
      DistinctKept(lt, Replay(lt, before), Issued(lt, before), log[|log| - 1]);
    }
  }

  /** So a Complete or Release touches at most one row. */
  lemma AtMostOneRow(lt: Collation, log: seq<Statement>, owner: string, receipt: string)
    requires Legal(lt, log)
    ensures |Matching(Replay(lt, log), owner, receipt)| <= 1
  {
    ReceiptsDistinct(lt, log);
    var matching := Matching(Replay(lt, log), owner, receipt);
    if id :| id in matching {
      assert matching == {id};
    }
  }

  ghost predicate Absent(t: Table, receipt: string) {
    forall id | id in t :: t[id].receipt != Some(receipt)
  }

  lemma AbsentKept(lt: Collation, t: Table, issued: set<string>, s: Statement, receipt: string)
    requires Absent(t, receipt) && receipt in issued && FreshReceipts(lt, t, issued, s)
    ensures Absent(Execute(lt, t, s).0, receipt)
  {
    forall id | id in Execute(lt, t, s).0 ensures Execute(lt, t, s).0[id].receipt != Some(receipt) {
      EffectMoves(lt, t, s, id);
    }
  }

  /** A receipt that was generated once and is on no row stays off every row. */
  lemma {:induction false} AbsentForever(lt: Collation, log: seq<Statement>, i: nat, j: nat, receipt: string)
    requires Legal(lt, log) && i <= j <= |log|
    requires receipt in Issued(lt, log[..i]) && Absent(Replay(lt, log[..i]), receipt)
    ensures receipt in Issued(lt, log[..j]) && Absent(Replay(lt, log[..j]), receipt)
    decreases j
  {
    if i == j {
    } else {
      var m := j - 1;
      AbsentForever(lt, log, i, m, receipt);
      assert FreshAt(lt, log, m);
      AbsentKept(lt, Replay(lt, log[..m]), Issued(lt, log[..m]), log[m], receipt);
      Advance(lt, log, m, j);
      IssuedAdvance(lt, log, m, j);
    }
  }

  /** Once the row holding a receipt has been claimed again, released or completed, that receipt matches no
      row for the rest of the run: whoever still holds it can neither complete nor release anything. */
  lemma StaleReceipt(lt: Collation, log: seq<Statement>, i: nat, j: nat, id: Id, receipt: string, owner: string)
    requires Legal(lt, log) && i < j <= |log|
    requires RowAfter(lt, log[..i], id).Some? && RowAfter(lt, log[..i], id).value.receipt == Some(receipt)
    requires EffectAt(lt, log, id, i) in {Reclaimed, Released, Removed}
    ensures Absent(Replay(lt, log[..j]), receipt)
    ensures Matching(Replay(lt, log[..j]), owner, receipt) == {}
  {
    LegalPrefix(lt, log, i);
    ReceiptsDistinct(lt, log[..i]);
    assert log[..i + 1][..i] == log[..i];
    var t, t' := Replay(lt, log[..i]), Replay(lt, log[..i + 1]);
    assert receipt in Issued(lt, log[..i + 1]);
    assert FreshAt(lt, log, i);
    Advance(lt, log, i, i + 1);
    forall other | other in t' ensures t'[other].receipt != Some(receipt) {
      EffectMoves(lt, t, log[i], other);
      EffectMoves(lt, t, log[i], id);
    }
    AbsentForever(lt, log, i + 1, j, receipt);
  }

  // ----- separation of deliveries

  /** Between a claim and the row's next claim, release or completion, the claim stands. */
  lemma {:induction false} ClaimStands(lt: Collation, log: seq<Statement>, id: Id, i: nat, j: nat)
    requires i < j <= |log| && log[i].Claim? && EffectAt(lt, log, id, i) in {Claimed, Reclaimed}
    requires forall m | i < m < j :: EffectAt(lt, log, id, m) == Nothing
    ensures RowAfter(lt, log[..j], id).Some?
    ensures var m := RowAfter(lt, log[..j], id).value;
            m.owner == Some(log[i].owner) && m.receipt == Some(log[i].uuid(id)) && m.leaseUntil == Some(log[i].lease)
    decreases j
  {
    MovesAt(lt, log, id, j - 1, j);
    if i + 1 == j {
    } else {
      ClaimStands(lt, log, id, i, j - 1);
    }
  }

  ghost predicate Disturbed(lt: Collation, log: seq<Statement>, id: Id, i: nat) {
    i < |log| && EffectAt(lt, log, id, i) != Nothing
  }

  /** A receipt is good exactly as long as its row has not been claimed again, released or completed: until
      then it selects that row and no other, however long the lease has expired; from then on, none. */
  lemma ReceiptUsableExactly(lt: Collation, log: seq<Statement>, id: Id, i: nat, j: nat)
    requires Legal(lt, log) && i < j <= |log| && log[i].Claim? && EffectAt(lt, log, id, i) in {Claimed, Reclaimed}
    ensures Matching(Replay(lt, log[..j]), log[i].owner, log[i].uuid(id))
            == if forall m: nat | i < m < j :: !Disturbed(lt, log, id, m) then {id} else {}
  {
    if forall m: nat | i < m < j :: !Disturbed(lt, log, id, m) {
      forall m | i < m < j ensures EffectAt(lt, log, id, m) == Nothing {
        assert !Disturbed(lt, log, id, m);
      }
      ClaimStands(lt, log, id, i, j);
      LegalPrefix(lt, log, j);
      AtMostOneRow(lt, log[..j], log[i].owner, log[i].uuid(id));
      assert id in Matching(Replay(lt, log[..j]), log[i].owner, log[i].uuid(id));
      OnlyElement(Matching(Replay(lt, log[..j]), log[i].owner, log[i].uuid(id)), id);
    } else {
      var p := (l: nat) => Disturbed(lt, log, id, l);
      var some: nat :| i < some < j && Disturbed(lt, log, id, some);
      assert p(some);
      var m := First(p, i + 1, j);
      forall l | i < l < m ensures EffectAt(lt, log, id, l) == Nothing {
        assert !p(l);
      }
      ClaimStands(lt, log, id, i, m);
      MovesAt(lt, log, id, m, m + 1);
      StaleReceipt(lt, log, m, j, id, log[i].uuid(id), log[i].owner);
    }
  }

  lemma OnlyElement<T>(s: set<T>, x: T)
    requires x in s && |s| <= 1
    ensures s == {x}
  {
    assert |s - {x}| == |s| - 1;
    assert s - {x} == {};
  }

  /** After a release the row waits, free, for its new time. */
  lemma {:induction false} ReleaseStands(lt: Collation, log: seq<Statement>, id: Id, i: nat, j: nat)
    requires i < j <= |log| && log[i].Release? && EffectAt(lt, log, id, i) == Released
    requires forall m | i < m < j :: EffectAt(lt, log, id, m) == Nothing || EffectAt(lt, log, id, m) == Released
    ensures RowAfter(lt, log[..j], id).Some?
    ensures var m := RowAfter(lt, log[..j], id).value;
            m.owner.None? && m.leaseUntil.None? && m.availableAt == log[i].availableAt
    decreases j
  {
    MovesAt(lt, log, id, j - 1, j);
    if i + 1 == j {
    } else {
      ReleaseStands(lt, log, id, i, j - 1);
    }
  }

  ghost predicate Frees(lt: Collation, log: seq<Statement>, id: Id, i: nat) {
    i < |log| && EffectAt(lt, log, id, i) == Released
  }

  /** The first release after a claim gives that claim back. */
  lemma ReleaseByClaimer(lt: Collation, log: seq<Statement>, id: Id, i: nat, j: nat) returns (m: nat)
    requires i < j < |log| && log[i].Claim? && EffectAt(lt, log, id, i) in {Claimed, Reclaimed}
    requires forall m | i < m < j :: EffectAt(lt, log, id, m) == Nothing || EffectAt(lt, log, id, m) == Released
    requires exists m :: i < m < j && Frees(lt, log, id, m)
    ensures i < m < j && log[m].Release? && EffectAt(lt, log, id, m) == Released
    ensures log[m].owner == log[i].owner && log[m].receipt == log[i].uuid(id)
  {
    var p := (l: nat) => Frees(lt, log, id, l);
    var some :| i < some < j && Frees(lt, log, id, some);
    assert p(some);
    m := First(p, i + 1, j);
    forall l | i < l < m ensures EffectAt(lt, log, id, l) == Nothing {
      assert !p(l);
    }
    ClaimStands(lt, log, id, i, m);
    MovesAt(lt, log, id, m, m + 1);
  }

  /** Two consecutive claims of one row are apart: either the first was given back in between, with its own
      receipt, and the second came no earlier than the time asked for, or the second's clock had reached
      the end of the first's lease. */
  lemma DeliveriesApart(lt: Collation, log: seq<Statement>, id: Id, i: nat, j: nat)
    requires i < j < |log| && log[i].Claim? && log[j].Claim?
    requires EffectAt(lt, log, id, i) in {Claimed, Reclaimed} && EffectAt(lt, log, id, j) in {Claimed, Reclaimed}
    requires forall m | i < m < j :: EffectAt(lt, log, id, m) == Nothing || EffectAt(lt, log, id, m) == Released
    ensures || log[i].lease <= log[j].now
            || (exists m :: && i < m < j && log[m].Release? && EffectAt(lt, log, id, m) == Released
                            && log[m].owner == log[i].owner && log[m].receipt == log[i].uuid(id)
                            && log[m].availableAt <= log[j].now)
  {
    MovesAt(lt, log, id, j, j + 1);
    if exists m :: i < m < j && Frees(lt, log, id, m) {
      var m := ReleaseByClaimer(lt, log, id, i, j);
      ReleaseStands(lt, log, id, m, j);
    } else {
      forall m | i < m < j ensures EffectAt(lt, log, id, m) == Nothing {
        assert !Frees(lt, log, id, m);
      }
      ClaimStands(lt, log, id, i, j);
    }
  }
}

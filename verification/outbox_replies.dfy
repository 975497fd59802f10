/** What each statement of a run answers and writes, in terms of what happened before it. */
module OutboxReplies {
  import opened Sql
  import opened Ordering
  import opened OutboxStore
  import opened OutboxLog
  import opened OutboxClaim
  import opened OutboxHistory

  // ----- Insert

  predicate ColumnsFit(id: Id, content: Content) {
    && TextFits(id) && TextFits(content.topic) && TextFits(content.unit) && TextFits(content.contentType)
    && 1 <= |content.payload| <= 1048576
  }

  /** An insert takes effect, and affects one row, exactly if its id is not stored and its columns fit;
      otherwise it is rejected. Other rows stay. */
  lemma InsertExactly(lt: Collation, log: seq<Statement>, i: nat, j: nat)
    requires j == i + 1 <= |log| && log[i].Insert?
    ensures var s := log[i];
            if RowAfter(lt, log[..i], s.id).None? && ColumnsFit(s.id, s.content) then
              && EffectAt(lt, log, s.id, i) == Inserted && ReplyAt(lt, log, i) == Affected(1)
              && RowAfter(lt, log[..j], s.id) == Some(Message(s.content, s.now, s.now, None, None, None, 0))
              && forall id | id != s.id :: RowAfter(lt, log[..j], id) == RowAfter(lt, log[..i], id)
            else
              && EffectAt(lt, log, s.id, i) == Nothing && ReplyAt(lt, log, i) == Rejected
              && Replay(lt, log[..j]) == Replay(lt, log[..i])
  {
    Advance(lt, log, i, j);
  }

  // ----- Complete and Release

  /** A claim of the row at position `i` that nothing has disturbed before `j`. */
  ghost predicate Stands(lt: Collation, log: seq<Statement>, id: Id, i: nat, j: nat) {
    && i < j <= |log| && log[i].Claim? && EffectAt(lt, log, id, i) in {Claimed, Reclaimed}
    && forall m: nat | i < m < j :: !Disturbed(lt, log, id, m)
  }

  lemma MatchingIs(lt: Collation, log: seq<Statement>, i: nat)
    requires i < |log| && (log[i].Complete? || log[i].Release?)
    ensures ReplyAt(lt, log, i) == Affected(|Matching(Replay(lt, log[..i]), log[i].owner, log[i].receipt)|)
    ensures forall id :: EffectAt(lt, log, id, i) != Nothing
                         <==> id in Matching(Replay(lt, log[..i]), log[i].owner, log[i].receipt)
  {
  }

  /** The holder of a claim is told that one row was affected exactly if nothing has happened to the row since
      the claim, and otherwise that none was. */
  lemma ReceiptAnswered(lt: Collation, log: seq<Statement>, id: Id, i: nat, j: nat)
    requires Legal(lt, log) && i < j < |log| && log[i].Claim? && EffectAt(lt, log, id, i) in {Claimed, Reclaimed}
    requires log[j] == Complete(log[i].owner, log[i].uuid(id))
             || (log[j].Release? && log[j].owner == log[i].owner && log[j].receipt == log[i].uuid(id))
    ensures ReplyAt(lt, log, j)
            == if forall m: nat | i < m < j :: !Disturbed(lt, log, id, m) then Affected(1) else Affected(0)
    ensures EffectAt(lt, log, id, j) != Nothing <==> forall m: nat | i < m < j :: !Disturbed(lt, log, id, m)
    ensures forall other | other != id :: EffectAt(lt, log, other, j) == Nothing
  {
    ReceiptUsableExactly(lt, log, id, i, j);
    MatchingIs(lt, log, j);
  }

  /** An owned row was last touched by a claim, which left its owner and receipt there. */
  lemma {:induction false} OwnedByClaim(lt: Collation, log: seq<Statement>, id: Id, j: nat) returns (i: nat)
    requires j <= |log| && RowAfter(lt, log[..j], id).Some? && RowAfter(lt, log[..j], id).value.owner.Some?
    ensures Stands(lt, log, id, i, j)
    ensures RowAfter(lt, log[..j], id).value.owner == Some(log[i].owner)
    ensures RowAfter(lt, log[..j], id).value.receipt == Some(log[i].uuid(id))
    decreases j
  {
    if j == 0 {
      assert false;
    } else {
      i := j - 1;
      MovesAt(lt, log, id, i, j);
      if EffectAt(lt, log, id, i) == Nothing {
        var before := i;
        i := OwnedByClaim(lt, log, id, before);
        forall m: nat | i < m < j ensures !Disturbed(lt, log, id, m) {
          if m == before {
          } else {
            assert m < before;
          }
        }
      }
    }
  }

  /** The row's last claim still stands, was made by this owner and returned this receipt. */
  ghost predicate OutWith(lt: Collation, log: seq<Statement>, id: Id, owner: string, receipt: string, j: nat) {
    exists i: nat :: Stands(lt, log, id, i, j) && log[i].owner == owner && log[i].uuid(id) == receipt
  }

  lemma MatchingOut(lt: Collation, log: seq<Statement>, id: Id, owner: string, receipt: string, j: nat)
    requires Legal(lt, log) && j <= |log|
    ensures id in Matching(Replay(lt, log[..j]), owner, receipt) <==> OutWith(lt, log, id, owner, receipt, j)
  {
    if id in Matching(Replay(lt, log[..j]), owner, receipt) {
      var i := OwnedByClaim(lt, log, id, j);
    }
    if i: nat :| Stands(lt, log, id, i, j) && log[i].owner == owner && log[i].uuid(id) == receipt {
      ReceiptUsableExactly(lt, log, id, i, j);
    }
  }

  /** Whatever owner and receipt are presented: they affect the row whose standing claim they belong to, and the
      answer is one if there is such a row, and otherwise none. */
  lemma HeldExactly(lt: Collation, log: seq<Statement>, j: nat)
    requires Legal(lt, log) && j < |log| && (log[j].Complete? || log[j].Release?)
    ensures forall id :: EffectAt(lt, log, id, j) != Nothing
                         <==> OutWith(lt, log, id, log[j].owner, log[j].receipt, j)
    ensures ReplyAt(lt, log, j)
            == if exists id :: OutWith(lt, log, id, log[j].owner, log[j].receipt, j) then Affected(1) else Affected(0)
  {
    var owner, receipt := log[j].owner, log[j].receipt;
    var matching := Matching(Replay(lt, log[..j]), owner, receipt);
    MatchingIs(lt, log, j);
    forall id ensures id in matching <==> OutWith(lt, log, id, owner, receipt, j) {
      MatchingOut(lt, log, id, owner, receipt, j);
    }
    if id :| id in matching {
      LegalPrefix(lt, log, j);
      AtMostOneRow(lt, log[..j], owner, receipt);
      OnlyElement(matching, id);
    }
  }

  /** What a row becomes, column by column. */
  lemma RowsWritten(lt: Collation, log: seq<Statement>, id: Id, i: nat, j: nat)
    requires j == i + 1 <= |log|
    ensures var before, after, s := RowAfter(lt, log[..i], id), RowAfter(lt, log[..j], id), log[i];
            match EffectAt(lt, log, id, i)
            case Nothing => after == before
            case Inserted => before.None? && after.Some?
            case Released =>
              && s.Release? && before.Some?
              && var m := before.value;
                 after == Some(Message(m.content, m.occurredAt, s.availableAt, None, None, None, m.attempt))
            case Removed => s.Complete? && before.Some? && after.None?
            case _ =>
              && s.Claim? && before.Some? && after.Some?
              && var m := before.value;
                 && m.attempt < 9223372036854775807
                 && after == Some(Message(m.content, m.occurredAt, m.availableAt, Some(s.owner), Some(s.uuid(id)),
                                          Some(s.lease), m.attempt + 1))
  {
    MovesAt(lt, log, id, i, j);
  }

  // ----- Claim

  /** The last position before `n` at which one of these effects happened to the row. */
  ghost function Latest(lt: Collation, log: seq<Statement>, id: Id, kinds: set<Effect>, n: nat): (at: Option<nat>)
    requires n <= |log|
    ensures at.None? ==> forall m: nat | m < n :: EffectAt(lt, log, id, m) !in kinds
    ensures at.Some? ==>
              && at.value < n && EffectAt(lt, log, id, at.value) in kinds
              && forall m: nat | at.value < m < n :: EffectAt(lt, log, id, m) !in kinds
  {
    if n == 0 then None
    else if EffectAt(lt, log, id, n - 1) in kinds then Some(n - 1)
    else Latest(lt, log, id, kinds, n - 1)
  }

  /** How often the row was claimed from position `i` up to `n`. */
  ghost function ClaimsBetween(lt: Collation, log: seq<Statement>, id: Id, i: nat, n: nat): nat
    requires i <= n <= |log|
  {
    if n == i then 0
    else ClaimsBetween(lt, log, id, i, n - 1) + if EffectAt(lt, log, id, n - 1) in {Claimed, Reclaimed} then 1 else 0
  }

  /** The statement, an insert or a release, makes its row available from `time` on. */
  predicate Offers(s: Statement, time: Time) {
    (s.Insert? && s.now == time) || (s.Release? && s.availableAt == time)
  }

  /** The lease a statement that put, claimed or freed a row left on it. */
  function LeaseLeft(s: Statement): Option<Time> {
    if s.Claim? then Some(s.lease) else None
  }

  /** The last insertion or removal of the row. */
  ghost function Entry(lt: Collation, log: seq<Statement>, id: Id, n: nat): Option<nat>
    requires n <= |log|
  {
    Latest(lt, log, id, {Inserted, Removed}, n)
  }

  /** The last time the row was put into the queue, or back into it. */
  ghost function Offer(lt: Collation, log: seq<Statement>, id: Id, n: nat): Option<nat>
    requires n <= |log|
  {
    Latest(lt, log, id, {Inserted, Released}, n)
  }

  /** The last time the row came into new hands, or into none. */
  ghost function Handover(lt: Collation, log: seq<Statement>, id: Id, n: nat): Option<nat>
    requires n <= |log|
  {
    Latest(lt, log, id, {Inserted, Claimed, Reclaimed, Released}, n)
  }

  /** The stored columns against what happened to the row. */
  ghost predicate Traced(lt: Collation, log: seq<Statement>, id: Id, n: nat)
    requires n <= |log|
  {
    var entry, offer, handover := Entry(lt, log, id, n), Offer(lt, log, id, n), Handover(lt, log, id, n);
    match RowAfter(lt, log[..n], id)
    case None => entry.Some? ==> EffectAt(lt, log, id, entry.value) == Removed
    case Some(m) =>
      && entry.Some? && EffectAt(lt, log, id, entry.value) == Inserted
      && offer.Some? && Offers(log[offer.value], m.availableAt)
      && handover.Some? && m.leaseUntil == LeaseLeft(log[handover.value])
      && m.attempt == ClaimsBetween(lt, log, id, entry.value, n)
  }

  lemma LatestNext(lt: Collation, log: seq<Statement>, id: Id, kinds: set<Effect>, i: nat, n: nat)
    requires n == i + 1 <= |log|
    ensures Latest(lt, log, id, kinds, n)
            == if EffectAt(lt, log, id, i) in kinds then Some(i) else Latest(lt, log, id, kinds, i)
  {
  }

  lemma TracedStep(lt: Collation, log: seq<Statement>, id: Id, i: nat, n: nat)
    requires n == i + 1 <= |log| && Traced(lt, log, id, i)
    ensures Traced(lt, log, id, n)
  {
    MovesAt(lt, log, id, i, n);
    LatestNext(lt, log, id, {Inserted, Removed}, i, n);
    LatestNext(lt, log, id, {Inserted, Released}, i, n);
    LatestNext(lt, log, id, {Inserted, Claimed, Reclaimed, Released}, i, n);
    assert n - 1 == i;
  }

  lemma {:induction false} TracedAlong(lt: Collation, log: seq<Statement>, id: Id, n: nat)
    requires n <= |log|
    ensures Traced(lt, log, id, n)
  {
    if n == 0 {
    } else {
      TracedAlong(lt, log, id, n - 1);
      TracedStep(lt, log, id, n - 1, n);
    }
  }

  /** The row can be claimed at time `now`, by what happened to it: it is stored; it was inserted, or given back
      for a time, at or before `now`; nobody has claimed it since, or the lease of the last claim has ended; and it
      has not been claimed 2^63 - 1 times. */
  ghost predicate Ready(lt: Collation, log: seq<Statement>, id: Id, n: nat, now: Time)
    requires n <= |log|
  {
    var entry, offer, handover := Entry(lt, log, id, n), Offer(lt, log, id, n), Handover(lt, log, id, n);
    && entry.Some? && EffectAt(lt, log, id, entry.value) == Inserted
    && offer.Some? && (exists time :: Offers(log[offer.value], time) && time <= now)
    && handover.Some? && (log[handover.value].Claim? ==> log[handover.value].lease <= now)
    && ClaimsBetween(lt, log, id, entry.value, n) < 9223372036854775807
  }

  lemma ReadyIsEligible(lt: Collation, log: seq<Statement>, id: Id, n: nat, now: Time)
    requires n <= |log|
    ensures Ready(lt, log, id, n, now)
            <==> RowAfter(lt, log[..n], id).Some? && Eligible(RowAfter(lt, log[..n], id).value, now)
  {
    TracedAlong(lt, log, id, n);
  }

  /** Delivery order: by time of occurrence, then by id. */
  predicate Precedes(lt: Collation, time: Time, id: Id, time': Time, id': Id) {
    time < time' || (time == time' && lt(id, id'))
  }

  ghost predicate Delivers(reply: Reply, id: Id) {
    reply.Delivered? && exists k :: 0 <= k < |reply.deliveries| && reply.deliveries[k].id == id
  }

  /** A claim delivers rows that are ready and not locked by others, in order, at most as many as asked for. */
  lemma ClaimDeliversReady(lt: Collation, log: seq<Statement>, i: nat)
    requires i < |log| && log[i].Claim? && ReplyAt(lt, log, i).Delivered?
    ensures var ds, s := ReplyAt(lt, log, i).deliveries, log[i];
            && |ds| <= s.limit
            && (forall k | 0 <= k < |ds| :: ds[k].id !in s.skip && Ready(lt, log, ds[k].id, i, s.now))
            && (forall k, l | 0 <= k < l < |ds| ::
                  Precedes(lt, ds[k].occurredAt, ds[k].id, ds[l].occurredAt, ds[l].id))
  {
    var t, s := Replay(lt, log[..i]), log[i];
    var c := Candidates(lt, t, s.now, s.skip, s.limit);
    var ds := ReplyAt(lt, log, i).deliveries;
    ClaimDelivers(lt, t, s);
    SelectsTheFirst(lt, t, s.now, s.skip, s.limit, c);
    forall k | 0 <= k < |ds| ensures ds[k].id !in s.skip && Ready(lt, log, ds[k].id, i, s.now) {
      assert c[k] in c && c[k] in Waiting(t, s.now, s.skip);
      ReadyIsEligible(lt, log, c[k].id, i, s.now);
    }
    forall k, l | 0 <= k < l < |ds|
      ensures Precedes(lt, ds[k].occurredAt, ds[k].id, ds[l].occurredAt, ds[l].id)
    {
      assert Earlier(lt)(c[k], c[l]);
    }
  }

  lemma SubsetIsAll<T>(a: set<T>, b: set<T>)
    requires a <= b && |a| == |b|
    ensures a == b
  {
    assert |b - a| == |b| - |a|;
    assert b - a == {};
  }

  lemma AllTaken(lt: Collation, t: Table, s: Statement)
    requires s.Claim? && s.limit >= |Waiting(t, s.now, s.skip)|
    ensures Elements(Candidates(lt, t, s.now, s.skip, s.limit)) == Waiting(t, s.now, s.skip)
  {
    var c, waiting := Candidates(lt, t, s.now, s.skip, s.limit), Waiting(t, s.now, s.skip);
    EarlierTotal(lt);
    SelectsTheFirst(lt, t, s.now, s.skip, s.limit, c);
    ArrangementSize(Earlier(lt), c);
    SubsetIsAll(Elements(c), waiting);
  }

  lemma FewerThanWaiting(lt: Collation, t: Table, s: Statement, q: Position)
    requires s.Claim? && s.limit >= 0 && q in Waiting(t, s.now, s.skip)
    requires q !in Candidates(lt, t, s.now, s.skip, s.limit)
    ensures |Candidates(lt, t, s.now, s.skip, s.limit)| == s.limit
  {
    var c, waiting := Candidates(lt, t, s.now, s.skip, s.limit), Waiting(t, s.now, s.skip);
    SelectsTheFirst(lt, t, s.now, s.skip, s.limit, c);
    if s.limit >= |waiting| {
      AllTaken(lt, t, s);
    }
  }

  /** The rows a claim delivers are the rows it writes to. */
  lemma DeliversClaimed(lt: Collation, log: seq<Statement>, i: nat, id: Id)
    requires i < |log| && log[i].Claim?
    ensures Delivers(ReplyAt(lt, log, i), id) <==> EffectAt(lt, log, id, i) in {Claimed, Reclaimed}
    ensures EffectAt(lt, log, id, i) in {Nothing, Claimed, Reclaimed}
  {
    if ReplyAt(lt, log, i).Delivered? {
      DeliversCandidates(lt, log, i, id);
    }
  }

  lemma DeliversCandidates(lt: Collation, log: seq<Statement>, i: nat, id: Id)
    requires i < |log| && log[i].Claim? && ReplyAt(lt, log, i).Delivered?
    ensures Delivers(ReplyAt(lt, log, i), id)
            <==> id in Ids(Candidates(lt, Replay(lt, log[..i]), log[i].now, log[i].skip, log[i].limit))
  {
    var t, s := Replay(lt, log[..i]), log[i];
    var c, ds := Candidates(lt, t, s.now, s.skip, s.limit), ReplyAt(lt, log, i).deliveries;
    ClaimDelivers(lt, t, s);
    if id in Ids(c) {
      var k :| 0 <= k < |c| && c[k].id == id;
      assert ds[k].id == id;
    }
  }

  /** It leaves a ready row out only if it is locked by others, or as many rows as asked for come before it. */
  lemma ClaimLeavesLater(lt: Collation, log: seq<Statement>, i: nat, id: Id)
    requires i < |log| && log[i].Claim? && ReplyAt(lt, log, i).Delivered?
    requires Ready(lt, log, id, i, log[i].now) && id !in log[i].skip && !Delivers(ReplyAt(lt, log, i), id)
    ensures RowAfter(lt, log[..i], id).Some?
    ensures var ds := ReplyAt(lt, log, i).deliveries;
            && |ds| == log[i].limit
            && forall k | 0 <= k < |ds| ::
                 Precedes(lt, ds[k].occurredAt, ds[k].id, RowAfter(lt, log[..i], id).value.occurredAt, id)
  {
    var t, s := Replay(lt, log[..i]), log[i];
    var c, ds := Candidates(lt, t, s.now, s.skip, s.limit), ReplyAt(lt, log, i).deliveries;
    ReadyIsEligible(lt, log, id, i, s.now);
    ClaimDelivers(lt, t, s);
    SelectsTheFirst(lt, t, s.now, s.skip, s.limit, c);
    var q := Position(t[id].occurredAt, id);
    assert q in Waiting(t, s.now, s.skip);
    DeliversCandidates(lt, log, i, id);
    FewerThanWaiting(lt, t, s, q);
    forall k | 0 <= k < |ds| ensures Precedes(lt, ds[k].occurredAt, ds[k].id, t[id].occurredAt, id) {
      assert c[k] in c && Earlier(lt)(c[k], q);
    }
  }

  /** Receipts fitting, a claim is rejected exactly for a negative limit, or for an owner that does not fit if it
      finds a row to write it to. */
  lemma ClaimRejected(lt: Collation, log: seq<Statement>, i: nat)
    requires i < |log| && log[i].Claim? && forall id :: TextFits(log[i].uuid(id))
    ensures ReplyAt(lt, log, i) == Rejected || ReplyAt(lt, log, i).Delivered?
    ensures var s := log[i];
            ReplyAt(lt, log, i) == Rejected <==>
            || s.limit < 0
            || (s.limit > 0 && !TextFits(s.owner) && exists id :: id !in s.skip && Ready(lt, log, id, i, s.now))
  {
    var t, s := Replay(lt, log[..i]), log[i];
    if s.limit >= 0 {
      var c := Candidates(lt, t, s.now, s.skip, s.limit);
      SelectsTheFirst(lt, t, s.now, s.skip, s.limit, c);
      if c == [] {
        forall id | id !in s.skip && Ready(lt, log, id, i, s.now) ensures s.limit == 0 {
          ReadyIsEligible(lt, log, id, i, s.now);
          assert Position(t[id].occurredAt, id) in Waiting(t, s.now, s.skip);
        }
      } else {
        assert c[0] in c && c[0] in Waiting(t, s.now, s.skip) && c[0].id in Ids(c);
        ReadyIsEligible(lt, log, c[0].id, i, s.now);
      }
    }
  }

  lemma {:induction false} NoMoreThanIds(positions: set<Position>, ids: set<Id>)
    requires forall p | p in positions :: p.id in ids
    requires forall p, q | p in positions && q in positions && p.id == q.id :: p == q
    ensures |positions| <= |ids|
  {
    if positions == {} {
    } else {
      var p :| p in positions;
      NoMoreThanIds(positions - {p}, ids - {p.id});
    }
  }

  /** A claim that skips nobody and asks for as many rows as are stored delivers exactly the rows that are ready:
      whatever became of earlier claims, a message that has not been completed is offered again. */
  lemma ClaimsExactly(lt: Collation, log: seq<Statement>, i: nat, id: Id)
    requires i < |log| && log[i].Claim? && log[i].skip == {} && log[i].limit >= |Replay(lt, log[..i])|
    requires TextFits(log[i].owner) && forall id :: TextFits(log[i].uuid(id))
    ensures Delivers(ReplyAt(lt, log, i), id) <==> Ready(lt, log, id, i, log[i].now)
  {
    var t, s := Replay(lt, log[..i]), log[i];
    var c, waiting := Candidates(lt, t, s.now, s.skip, s.limit), Waiting(t, s.now, s.skip);
    ClaimRejected(lt, log, i);
    DeliversCandidates(lt, log, i, id);
    ReadyIsEligible(lt, log, id, i, s.now);
    NoMoreThanIds(waiting, t.Keys);
    if id in Ids(c) {
      var p :| p in c && p.id == id;
      assert p in waiting;
    }
    AllTaken(lt, t, s);
    assert id in t && Eligible(t[id], s.now) ==> Position(t[id].occurredAt, id) in Elements(c);
  }
}

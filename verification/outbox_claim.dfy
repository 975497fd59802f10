/** What one Claim selects, and what a series of them delivers. */
module OutboxClaim {
  import opened Sql
  import opened Ordering
  import opened OutboxStore

  /** A claim takes as many rows as the limit and the queue allow, and they are the first claimable ones:
      strictly ascending in `(occurred_at, id)`, with every row left out coming after all of them. No other
      selection has these properties. */
  lemma SelectsTheFirst(lt: Collation, t: Table, now: Time, skip: set<Id>, limit: nat, c: seq<Position>)
    ensures var waiting := Waiting(t, now, skip);
            c == Candidates(lt, t, now, skip, limit)
            <==> |c| == Least(limit, |waiting|) && Firsts(Earlier(lt), c, waiting)
  {
    EarlierTotal(lt);
    var waiting := Waiting(t, now, skip);
    QueueSize(lt, t, now, skip);
    PrefixIsFirsts(Earlier(lt), waiting, Least(limit, |waiting|));
    if Firsts(Earlier(lt), c, waiting) {
      FirstsArePrefix(Earlier(lt), c, waiting);
    }
  }

  lemma QueueSize(lt: Collation, t: Table, now: Time, skip: set<Id>)
    ensures |Queue(lt, t, now, skip)| == |Waiting(t, now, skip)|
  {
    EarlierTotal(lt);
    ArrangementSize(Earlier(lt), Queue(lt, t, now, skip));
  }

  /** The deliveries name the selected rows in order, each with its stored content, the receipt generated
      for it and its attempt counted up; the table changes in exactly those rows. */
  lemma ClaimDelivers(lt: Collation, t: Table, s: Statement)
    requires Granted(lt, t, s)
    ensures var (t', reply) := Execute(lt, t, s);
            var c := Candidates(lt, t, s.now, s.skip, s.limit);
            && reply.Delivered? && |reply.deliveries| == |c|
            && t'.Keys == t.Keys
            && (forall i | 0 <= i < |c| ::
                  && c[i].id in t && c[i].occurredAt == t[c[i].id].occurredAt
                  && var m := t[c[i].id];
                     && Eligible(m, s.now)
                     && reply.deliveries[i]
                        == Delivery(c[i].id, m.content, m.occurredAt, s.uuid(c[i].id), m.attempt + 1)
                     && t'[c[i].id] == ClaimedRow(m, s.owner, s.lease, s.uuid(c[i].id)))
            && (forall id | id in t && id !in Ids(c) :: t'[id] == t[id])
  {
    var c := Candidates(lt, t, s.now, s.skip, s.limit);
    assert forall i | 0 <= i < |c| :: c[i] in c && c[i].id in Ids(c);
  }

  // ----- draining

  /** Claims repeated at a fixed time, with limit `k` and nobody else writing: the owner, lease and
      generated receipts may differ from round to round. */
  datatype Drain = Drain(now: Time, k: nat, owner: nat -> string, lease: nat -> Time, uuid: nat -> Id -> string)

  ghost function Round(d: Drain, r: nat): Statement {
    Claim(d.owner(r), d.now, d.lease(r), d.k, {}, d.uuid(r))
  }

  /** `tables(r)` is the table after r rounds. */
  ghost predicate Drains(lt: Collation, tables: nat -> Table, d: Drain) {
    && (forall r: nat {:trigger Round(d, r)} :: tables(r + 1) == Execute(lt, tables(r), Round(d, r)).0)
    && Lasting(d)
  }

  /** Every round writes what fits, for longer than the time of the claims. */
  ghost predicate Lasting(d: Drain) {
    && (forall r: nat :: d.lease(r) > d.now)
    && (forall r: nat :: Fits(d.owner(r), MAX_TEXT))
    && (forall r: nat, id: Id :: Fits(d.uuid(r)(id), MAX_TEXT))
  }

  ghost function AfterRounds(lt: Collation, t: Table, d: Drain, r: nat): Table {
    if r == 0 then t else Execute(lt, AfterRounds(lt, t, d, r - 1), Round(d, r - 1)).0
  }

  lemma NextRound(lt: Collation, t: Table, d: Drain, r: nat)
    ensures AfterRounds(lt, t, d, r + 1) == Execute(lt, AfterRounds(lt, t, d, r), Round(d, r)).0
  {
  }

  /** Such a series exists from any table. */
  lemma RoundsExist(lt: Collation, t: Table, d: Drain) returns (tables: nat -> Table)
    requires Lasting(d)
    ensures tables(0) == t && Drains(lt, tables, d)
  {
    tables := (r: nat) => AfterRounds(lt, t, d, r);
    forall r: nat ensures tables(r + 1) == Execute(lt, tables(r), Round(d, r)).0 {
      NextRound(lt, t, d, r);
    }
  }

  /** The rows selected in round `r`. */
  ghost function Chunk(lt: Collation, tables: nat -> Table, d: Drain, r: nat): seq<Position> {
    Candidates(lt, tables(r), d.now, {}, d.k)
  }

  /** Everything selected in the first `r` rounds. */
  ghost function Drained(lt: Collation, tables: nat -> Table, d: Drain, r: nat): seq<Position> {
    if r == 0 then [] else Drained(lt, tables, d, r - 1) + Chunk(lt, tables, d, r - 1)
  }

  /** A claim whose lease outlasts `now` removes what it took, and nothing else, from the queue. */
  lemma ClaimShortensQueue(lt: Collation, t: Table, s: Statement)
    requires Granted(lt, t, s) && s.lease > s.now
    ensures Queue(lt, Execute(lt, t, s).0, s.now, s.skip)
            == Queue(lt, t, s.now, s.skip)[|Candidates(lt, t, s.now, s.skip, s.limit)|..]
  {
    EarlierTotal(lt);
    var c := Candidates(lt, t, s.now, s.skip, s.limit);
    var t' := Execute(lt, t, s).0;
    var waiting := Waiting(t, s.now, s.skip);
    assert Waiting(t', s.now, s.skip) == waiting - Elements(c);
    RestArranges(Earlier(lt), Queue(lt, t, s.now, s.skip), waiting, |c|);
    ArrangementIs(Earlier(lt), Queue(lt, t, s.now, s.skip)[|c|..], waiting - Elements(c));
  }

  /** r rounds of k. */
  function Served(k: nat, r: nat): nat {
    if r == 0 then 0 else Served(k, r - 1) + k
  }

  lemma {:induction false} ServedIs(k: nat, r: nat)
    ensures Served(k, r) == r * k
  {
    if r == 0 {
    } else {
      ServedIs(k, r - 1);
    }
  }

  /** Taking up to `k` more elements from what is left of `queue` after `served`. */
  lemma TakeMore<T>(queue: seq<T>, served: nat, k: nat, left: seq<T>)
    requires left == queue[Least(served, |queue|)..]
    ensures left[Least(k, |left|)..] == queue[Least(served + k, |queue|)..]
    ensures left[..Least(k, |left|)] == queue[Least(served, |queue|)..Least(served + k, |queue|)]
    ensures queue[..Least(served, |queue|)] + left[..Least(k, |left|)] == queue[..Least(served + k, |queue|)]
  {
  }

  /** A queue from which each round takes up to `k` elements. */
  lemma {:induction false} TakeRounds<T>(queues: nat -> seq<T>, taken: nat -> seq<T>, k: nat, r: nat)
    requires taken(0) == []
    requires forall i: nat :: queues(i + 1) == queues(i)[Least(k, |queues(i)|)..]
    requires forall i: nat :: taken(i + 1) == taken(i) + queues(i)[..Least(k, |queues(i)|)]
    ensures queues(r) == queues(0)[Least(Served(k, r), |queues(0)|)..]
    ensures taken(r) == queues(0)[..Least(Served(k, r), |queues(0)|)]
  {
    if r == 0 {
    } else {
      TakeRounds(queues, taken, k, r - 1);
      TakeMore(queues(0), Served(k, r - 1), k, queues(r - 1));
      assert queues(r - 1 + 1) == queues(r) && taken(r - 1 + 1) == taken(r);
    }
  }

  lemma QueueAfterRounds(lt: Collation, tables: nat -> Table, d: Drain, r: nat)
    requires Drains(lt, tables, d)
    ensures var queue := Queue(lt, tables(0), d.now, {});
            && Queue(lt, tables(r), d.now, {}) == queue[Least(Served(d.k, r), |queue|)..]
            && Drained(lt, tables, d, r) == queue[..Least(Served(d.k, r), |queue|)]
  {
    var queues := (i: nat) => Queue(lt, tables(i), d.now, {});
    var taken := (i: nat) => Drained(lt, tables, d, i);
    forall i: nat
      ensures queues(i + 1) == queues(i)[Least(d.k, |queues(i)|)..]
      ensures taken(i + 1) == taken(i) + queues(i)[..Least(d.k, |queues(i)|)]
    {
      ClaimShortensQueue(lt, tables(i), Round(d, i));
    }
    TakeRounds(queues, taken, d.k, r);
  }

  lemma {:induction false} ServedGrows(k: nat, r: nat, q: nat)
    requires r <= q
    ensures Served(k, r) <= Served(k, q)
  {
    if r == q {
    } else {
      ServedGrows(k, r, q - 1);
    }
  }

  lemma QuotientBounds(a: nat, k: nat)
    requires k >= 1
    ensures (a / k) * k <= a < (a / k) * k + k
  {
  }

  lemma RoundsNeeded(n: nat, k: nat, r: nat)
    requires k >= 1
    ensures Served(k, r) < n <==> r < (n + k - 1) / k
  {
    var q := (n + k - 1) / k;
    QuotientBounds(n + k - 1, k);
    ServedIs(k, q);
    if r < q {
      ServedGrows(k, r, q - 1);
    } else {
      ServedGrows(k, q, r);
    }
  }

  lemma ClaimsNextOf(lt: Collation, t: Table, now: Time, k: nat, queue: seq<Position>, served: nat)
    requires Queue(lt, t, now, {}) == queue[Least(served, |queue|)..]
    ensures Candidates(lt, t, now, {}, k) == queue[Least(served, |queue|)..Least(served + k, |queue|)]
  {
    TakeMore(queue, served, k, Queue(lt, t, now, {}));
  }

  /** Draining: with limit k and n claimable rows, round r delivers the next chunk of the queue, from
      position r * k (see `ServedIs`) up to k rows further. */
  lemma RoundsDeliverChunks(lt: Collation, tables: nat -> Table, d: Drain, r: nat)
    requires Drains(lt, tables, d)
    ensures var queue := Queue(lt, tables(0), d.now, {});
            Chunk(lt, tables, d, r) == queue[Least(Served(d.k, r), |queue|)..Least(Served(d.k, r) + d.k, |queue|)]
  {
    QueueAfterRounds(lt, tables, d, r);
    ClaimsNextOf(lt, tables(r), d.now, d.k, Queue(lt, tables(0), d.now, {}), Served(d.k, r));
  }

  /** A round finds something exactly when fewer than ceil(n / k) went before it. */
  lemma RoundsFindSomething(lt: Collation, tables: nat -> Table, d: Drain, r: nat)
    requires d.k >= 1 && Drains(lt, tables, d)
    ensures Chunk(lt, tables, d, r) != [] <==> r < (|Waiting(tables(0), d.now, {})| + d.k - 1) / d.k
  {
    RoundsDeliverChunks(lt, tables, d, r);
    QueueSize(lt, tables(0), d.now, {});
    RoundsNeeded(|Waiting(tables(0), d.now, {})|, d.k, r);
  }

  /** After ceil(n / k) rounds the whole queue has been delivered, in order and each row once, and nothing
      is left to claim. */
  lemma DrainingDeliversTheQueue(lt: Collation, tables: nat -> Table, d: Drain)
    requires d.k >= 1 && Drains(lt, tables, d)
    ensures var rounds := (|Waiting(tables(0), d.now, {})| + d.k - 1) / d.k;
            && Drained(lt, tables, d, rounds) == Queue(lt, tables(0), d.now, {})
            && Arranges(Earlier(lt), Drained(lt, tables, d, rounds), Waiting(tables(0), d.now, {}))
            && Waiting(tables(rounds), d.now, {}) == {}
  {
    var n := |Waiting(tables(0), d.now, {})|;
    var rounds := (n + d.k - 1) / d.k;
    QueueSize(lt, tables(0), d.now, {});
    RoundsNeeded(n, d.k, rounds);
    EnoughRounds(lt, tables, d, rounds);
  }

  lemma EnoughRounds(lt: Collation, tables: nat -> Table, d: Drain, r: nat)
    requires Drains(lt, tables, d) && Served(d.k, r) >= |Queue(lt, tables(0), d.now, {})|
    ensures Drained(lt, tables, d, r) == Queue(lt, tables(0), d.now, {})
    ensures Waiting(tables(r), d.now, {}) == {}
  {
    var queue := Queue(lt, tables(0), d.now, {});
    QueueAfterRounds(lt, tables, d, r);
    assert Least(Served(d.k, r), |queue|) == |queue| && queue[..|queue|] == queue && queue[|queue|..] == [];
    assert Waiting(tables(r), d.now, {}) == Elements(Queue(lt, tables(r), d.now, {}));
  }
}

/** The outbox table: its rows and CHECK constraints, and the meaning of the four statements. */
module OutboxStore {
  import opened Sql
  import opened Ordering

  type Id = string

  // ----- the order of delivery

  /** Whether `a` precedes `b` character by character. */
  predicate CodePointLess(a: Id, b: Id) {
    b != [] && (a == [] || a[0] < b[0] || (a[0] == b[0] && CodePointLess(a[1..], b[1..])))
  }

  lemma {:induction false} CodePointLaws(a: Id, b: Id, c: Id)
    ensures !(CodePointLess(a, b) && CodePointLess(b, a))
    ensures a == b || CodePointLess(a, b) || CodePointLess(b, a)
    ensures CodePointLess(a, b) && CodePointLess(b, c) ==> CodePointLess(a, c)
  {
    if a == [] || b == [] {
    } else {
      CodePointLaws(a[1..], b[1..], if c == [] then [] else c[1..]);
      assert a == [a[0]] + a[1..] && b == [b[0]] + b[1..];
    }
  }

  lemma CodePointTotal()
    ensures StrictTotal((a: Id, b: Id) => CodePointLess(a, b))
  {
    var lt := (a: Id, b: Id) => CodePointLess(a, b);
    forall a, b ensures Asymmetric(lt, a, b) && Comparable(lt, a, b) { CodePointLaws(a, b, b); }
    forall a, b, c ensures Transitive(lt, a, b, c) { CodePointLaws(a, b, c); }
  }

  /** How the database compares ids: some fixed strict total order, which code points show to exist. */
  type Collation = lt: (Id, Id) -> bool | StrictTotal(lt)
    ghost witness (CodePointTotal(); (a: Id, b: Id) => CodePointLess(a, b))

  /** What `ORDER BY occurred_at, id` looks at. */
  datatype Position = Position(occurredAt: Time, id: Id)

  function Earlier(lt: Collation): (Position, Position) -> bool {
    (p: Position, q: Position) => p.occurredAt < q.occurredAt || (p.occurredAt == q.occurredAt && lt(p.id, q.id))
  }

  lemma EarlierTotal(lt: Collation)
    ensures StrictTotal(Earlier(lt))
  {
    forall p, q ensures Asymmetric(Earlier(lt), p, q) && Comparable(Earlier(lt), p, q) {
      assert Asymmetric(lt, p.id, q.id) && Comparable(lt, p.id, q.id);
    }
    forall p, q, r ensures Transitive(Earlier(lt), p, q, r) {
      assert Transitive(lt, p.id, q.id, r.id);
    }
  }

  // ----- rows

  datatype Content = Content(topic: string, unit: string, contentType: string, payload: seq<bv8>)

  datatype Message = Message(
    content: Content,
    occurredAt: Time,
    availableAt: Time,
    owner: Option<string>,
    receipt: Option<string>,
    leaseUntil: Option<Time>,
    attempt: BigInt)

  type Table = map<Id, Message>

  const MAX_TEXT := 512
  const MAX_PAYLOAD := 1048576

  /** The CHECK constraints on what an insert stores. */
  predicate Storable(id: Id, content: Content) {
    && Fits(id, MAX_TEXT) && Fits(content.topic, MAX_TEXT) && Fits(content.unit, MAX_TEXT)
    && Fits(content.contentType, MAX_TEXT) && 1 <= |content.payload| <= MAX_PAYLOAD
  }

  /** The CHECK constraints on what a claim writes into the rows `ids`. */
  predicate Stampable(ids: set<Id>, owner: string, uuid: Id -> string) {
    ids == {} || (Fits(owner, MAX_TEXT) && forall id | id in ids :: Fits(uuid(id), MAX_TEXT))
  }

  /** The table's CHECK constraints. */
  predicate Checks(id: Id, m: Message) {
    && Storable(id, m.content)
    && (m.owner.Some? ==> Fits(m.owner.value, MAX_TEXT))
    && (m.receipt.Some? ==> Fits(m.receipt.value, MAX_TEXT))
    && 0 <= m.attempt
    && (m.owner.None? <==> m.receipt.None?)
    && (m.owner.None? <==> m.leaseUntil.None?)
  }

  /** `skip` names the rows other transactions have locked; `uuid` is what `gen_random_uuid` returns for
      each row. */
  datatype Statement =
    | Insert(id: Id, content: Content, now: Time)
    | Claim(owner: string, now: Time, lease: Time, limit: int, skip: set<Id>, uuid: Id -> string)
    | Complete(owner: string, receipt: string)
    | Release(owner: string, receipt: string, availableAt: Time)

  datatype Delivery = Delivery(id: Id, content: Content, occurredAt: Time, receipt: string, attempt: int)

  datatype Reply = Affected(rows: nat) | Delivered(deliveries: seq<Delivery>) | Rejected

  // ----- the statements' meaning

  /** Whether the row can be claimed at time `now`. */
  predicate Eligible(m: Message, now: Time) {
    && m.availableAt <= now
    && (m.leaseUntil.None? || m.leaseUntil.value <= now)
    && m.attempt < MAX_BIGINT
  }

  function Waiting(t: Table, now: Time, skip: set<Id>): set<Position> {
    set id | id in t && id !in skip && Eligible(t[id], now) :: Position(t[id].occurredAt, id)
  }

  /** The claimable rows in delivery order. */
  ghost function Queue(lt: Collation, t: Table, now: Time, skip: set<Id>): (queue: seq<Position>)
    ensures Arranges(Earlier(lt), queue, Waiting(t, now, skip))
  {
    EarlierTotal(lt);
    Arrange(Earlier(lt), Waiting(t, now, skip))
  }

  /** The first rows of the queue, at most `limit` of them. */
  ghost function Candidates(lt: Collation, t: Table, now: Time, skip: set<Id>, limit: nat): (c: seq<Position>)
    ensures forall p | p in c :: p in Waiting(t, now, skip)
  {
    var queue := Queue(lt, t, now, skip);
    assert forall p | p in queue :: p in Elements(queue);
    queue[..Least(limit, |queue|)]
  }

  function ClaimedRow(m: Message, owner: string, lease: Time, receipt: string): Message
    requires m.attempt < MAX_BIGINT
  {
    m.(owner := Some(owner), receipt := Some(receipt), leaseUntil := Some(lease), attempt := m.attempt + 1)
  }

  function Ids(positions: seq<Position>): set<Id> {
    set p | p in positions :: p.id
  }

  /** The table after claiming `chosen`. */
  function ClaimAll(t: Table, chosen: set<Id>, owner: string, lease: Time, uuid: Id -> string): Table
    requires forall id | id in chosen && id in t :: t[id].attempt < MAX_BIGINT
  {
    map id | id in t :: if id in chosen then ClaimedRow(t[id], owner, lease, uuid(id)) else t[id]
  }

  function Deliver(id: Id, m: Message): Delivery
    requires m.receipt.Some?
  {
    Delivery(id, m.content, m.occurredAt, m.receipt.value, m.attempt)
  }

  function Deliveries(t: Table, positions: seq<Position>): seq<Delivery>
    requires forall p | p in positions :: p.id in t && t[p.id].receipt.Some?
  {
    seq(|positions|, i requires 0 <= i < |positions| => Deliver(positions[i].id, t[positions[i].id]))
  }

  /** Whether `owner = $1 AND receipt = $2` selects the row; NULL columns match nothing. */
  predicate Held(m: Message, owner: string, receipt: string) {
    m.owner == Some(owner) && m.receipt == Some(receipt)
  }

  function Matching(t: Table, owner: string, receipt: string): set<Id> {
    set id | id in t && Held(t[id], owner, receipt)
  }

  function ReleasedRow(m: Message, availableAt: Time): Message {
    m.(owner := None, receipt := None, leaseUntil := None, availableAt := availableAt)
  }

  ghost function Execute(lt: Collation, t: Table, s: Statement): (result: (Table, Reply)) {
    match s
    case Insert(id, content, now) =>
      if id in t || !Storable(id, content) then (t, Rejected)
      else (t[id := Message(content, now, now, None, None, None, 0)], Affected(1))
    case Claim(owner, now, lease, limit, skip, uuid) =>
      if limit < 0 then (t, Rejected)
      else
        var c := Candidates(lt, t, now, skip, limit);
        if !Stampable(Ids(c), owner, uuid) then (t, Rejected)
        else
          var t' := ClaimAll(t, Ids(c), owner, lease, uuid);
          (t', Delivered(Deliveries(t', c)))
    case Complete(owner, receipt) =>
      (t - Matching(t, owner, receipt), Affected(|Matching(t, owner, receipt)|))
    case Release(owner, receipt, availableAt) =>
      (map id | id in t :: if Held(t[id], owner, receipt) then ReleasedRow(t[id], availableAt) else t[id],
       Affected(|Matching(t, owner, receipt)|))
  }

  /** The statement is a claim that is carried out: its limit is not negative and what it writes fits. */
  ghost predicate Granted(lt: Collation, t: Table, s: Statement) {
    s.Claim? && s.limit >= 0 && Stampable(Ids(Candidates(lt, t, s.now, s.skip, s.limit)), s.owner, s.uuid)
  }

  // ----- the WHERE clause of Claim as SQL evaluates it

  function Claimable(message: Message, now: Time): Tri {
    Truth(message.availableAt <= now)
    .And(IsNull(message.leaseUntil).Or(AtMost(message.leaseUntil, now)))
    .And(Truth(message.attempt < MAX_BIGINT))
  }

  lemma ClaimableIsEligible(m: Message, now: Time)
    ensures Claimable(m, now).Holds() <==> Eligible(m, now)
    ensures !Claimable(m, now).Unknown?
  {
  }
}

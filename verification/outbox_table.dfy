/** The outbox as PostgreSQL updates it. The scans visit rows in no particular order, yet the outcome of
    each statement is fixed. */
module OutboxTables {
  import opened Sql
  import opened Ordering
  import opened OutboxStore
  import opened OutboxLog

  class OutboxTable {
    const collation: Collation
    var rows: Table
    ghost var log: seq<Statement>

    ghost predicate Valid()
      reads this
    {
      rows == Replay(collation, log)
    }

    constructor (collation: Collation)
      ensures Valid() && this.collation == collation && rows == map[] && log == []
    {
      this.collation := collation;
      rows := map[];
      log := [];
    }

    method Insert(id: Id, content: Content, now: Time) returns (reply: Reply)
      requires Valid()
      modifies this
      ensures Valid() && log == old(log) + [Statement.Insert(id, content, now)]
      ensures (rows, reply) == Execute(collation, old(rows), Statement.Insert(id, content, now))
      ensures reply == if id !in old(rows) && id in rows then Affected(1) else Rejected
    {
      Record(Statement.Insert(id, content, now));
      if id in rows || !Storable(id, content) { return Rejected; }
      rows := rows[id := Message(content, now, now, None, None, None, 0)];
      reply := Affected(1);
    }

    /** Selects and orders the candidates, updates them in whatever order the join meets them, and sorts
        what the update returned. */
    method Claim(owner: string, now: Time, lease: Time, limit: int, skip: set<Id>, uuid: Id -> string)
      returns (reply: Reply)
      requires Valid()
      modifies this
      ensures Valid() && log == old(log) + [Statement.Claim(owner, now, lease, limit, skip, uuid)]
      ensures (rows, reply) == Execute(collation, old(rows), Statement.Claim(owner, now, lease, limit, skip, uuid))
    {
      Record(Statement.Claim(owner, now, lease, limit, skip, uuid));
      if limit < 0 { return Rejected; }
      var candidates := SelectCandidates(now, limit, skip);
      if !Stampable(Ids(candidates), owner, uuid) { return Rejected; }
      var claimed := ClaimCandidates(owner, lease, uuid, candidates);
      var deliveries := SelectClaimed(claimed, candidates);
      assert forall i | 0 <= i < |candidates| :: candidates[i] in candidates;
      assert deliveries == Deliveries(rows, candidates);
      reply := Delivered(deliveries);
    }

    /** The `candidates` part of Claim: SELECT ... ORDER BY ... FOR UPDATE SKIP LOCKED LIMIT. */
    method SelectCandidates(now: Time, limit: nat, skip: set<Id>) returns (candidates: seq<Position>)
      ensures candidates == Candidates(collation, rows, now, skip, limit)
    {
      EarlierTotal(collation);
      var scan := set id | id in rows && id !in skip && Claimable(rows[id], now).Holds()
                    :: Position(rows[id].occurredAt, id);
      assert scan == Waiting(rows, now, skip);
      var queue := Sort(Earlier(collation), scan);
      candidates := queue[..Least(limit, |queue|)];
    }

    /** The `claimed` part of Claim: UPDATE ... FROM candidates ... RETURNING. */
    method ClaimCandidates(owner: string, lease: Time, uuid: Id -> string, candidates: seq<Position>)
      returns (claimed: map<Position, Delivery>)
      requires forall p | p in candidates :: p.id in rows && rows[p.id].attempt < MAX_BIGINT
      requires forall p, q | p in candidates && q in candidates && p.id == q.id :: p == q
      modifies this`rows
      ensures rows == ClaimAll(old(rows), Ids(candidates), owner, lease, uuid)
      ensures claimed.Keys == Elements(candidates)
      ensures forall p | p in claimed ::
                p.id in rows && rows[p.id].receipt.Some? && claimed[p] == Deliver(p.id, rows[p.id])
    {
      var todo := Elements(candidates);
      ghost var hit: set<Id> := {};
      claimed := map[];
      while todo != {}
        invariant todo <= Elements(candidates)
        invariant claimed.Keys == Elements(candidates) - todo
        invariant hit <= Ids(candidates)
        invariant forall p | p in candidates :: p.id in hit <==> p !in todo
        invariant rows == ClaimAll(old(rows), hit, owner, lease, uuid)
        invariant forall p | p in claimed :: claimed[p] == Deliver(p.id, rows[p.id])
        decreases todo
      {
        var p :| p in todo;
        var message := rows[p.id];
        message := message.(owner := Some(owner));
        message := message.(receipt := Some(uuid(p.id)));
        message := message.(leaseUntil := Some(lease));
        message := message.(attempt := message.attempt + 1);
        ClaimOneMore(old(rows), hit, p.id, owner, lease, uuid);
        rows := rows[p.id := message];
        claimed := claimed[p := Delivery(p.id, message.content, message.occurredAt, uuid(p.id), message.attempt)];
        hit := hit + {p.id};
        todo := todo - {p};
      }
      assert hit == Ids(candidates);
    }

    /** The final SELECT ... ORDER BY over what the update returned. */
    method SelectClaimed(claimed: map<Position, Delivery>, ghost candidates: seq<Position>)
      returns (deliveries: seq<Delivery>)
      requires claimed.Keys == Elements(candidates) && Ascending(Earlier(collation), candidates)
      ensures |deliveries| == |candidates|
      ensures forall i | 0 <= i < |candidates| :: candidates[i] in claimed && deliveries[i] == claimed[candidates[i]]
    {
      EarlierTotal(collation);
      var sorted := Sort(Earlier(collation), claimed.Keys);
      ArrangementIs(Earlier(collation), candidates, claimed.Keys);
      assert forall p | p in sorted :: p in Elements(sorted);
      deliveries := seq(|sorted|, i requires 0 <= i < |sorted| && sorted[i] in claimed => claimed[sorted[i]]);
    }

    method Complete(owner: string, receipt: string) returns (reply: Reply)
      requires Valid()
      modifies this
      ensures Valid() && log == old(log) + [Statement.Complete(owner, receipt)]
      ensures (rows, reply) == Execute(collation, old(rows), Statement.Complete(owner, receipt))
      // The answer counts the rows that are gone.
      ensures rows.Keys <= old(rows).Keys && reply == Affected(|old(rows).Keys - rows.Keys|)
    {
      Record(Statement.Complete(owner, receipt));
      ghost var before := rows;
      var affected := DeleteHeld(owner, receipt);
      assert before.Keys - rows.Keys == Matching(before, owner, receipt);
      reply := Affected(affected);
    }

    /** DELETE, scanning the rows in no particular order. */
    method DeleteHeld(owner: string, receipt: string) returns (affected: nat)
      modifies this`rows
      ensures rows == old(rows) - Matching(old(rows), owner, receipt)
      ensures affected == |Matching(old(rows), owner, receipt)|
    {
      var scan := rows.Keys;
      ghost var hit := {};
      affected := 0;
      while scan != {}
        invariant scan <= old(rows).Keys && hit !! scan
        invariant forall id | id in old(rows) && id !in scan :: id in hit <==> Held(old(rows)[id], owner, receipt)
        invariant hit <= old(rows).Keys && affected == |hit|
        invariant rows == old(rows) - hit
        decreases scan
      {
        var id :| id in scan;
        var message := rows[id];
        if Equals(message.owner, owner).And(Equals(message.receipt, receipt)).Holds() {
          rows := rows - {id};
          hit := hit + {id};
          affected := affected + 1;
        }
        scan := scan - {id};
      }
      assert hit == Matching(old(rows), owner, receipt);
    }

    method Release(owner: string, receipt: string, availableAt: Time) returns (reply: Reply)
      requires Valid()
      modifies this
      ensures Valid() && log == old(log) + [Statement.Release(owner, receipt, availableAt)]
      ensures (rows, reply) == Execute(collation, old(rows), Statement.Release(owner, receipt, availableAt))
    {
      Record(Statement.Release(owner, receipt, availableAt));
      ghost var before := rows;
      var affected := ReleaseHeld(owner, receipt, availableAt);
      assert rows == Execute(collation, before, Statement.Release(owner, receipt, availableAt)).0;
      reply := Affected(affected);
    }

    /** UPDATE, scanning the rows in no particular order. */
    method ReleaseHeld(owner: string, receipt: string, availableAt: Time) returns (affected: nat)
      modifies this`rows
      ensures rows.Keys == old(rows).Keys
      ensures forall id | id in rows ::
                rows[id] == if Held(old(rows)[id], owner, receipt) then ReleasedRow(old(rows)[id], availableAt)
                            else old(rows)[id]
      ensures affected == |Matching(old(rows), owner, receipt)|
    {
      var scan := rows.Keys;
      ghost var hit := {};
      affected := 0;
      while scan != {}
        invariant scan <= old(rows).Keys == rows.Keys && hit !! scan
        invariant forall id | id in old(rows) && id !in scan :: id in hit <==> Held(old(rows)[id], owner, receipt)
        invariant hit <= old(rows).Keys && affected == |hit|
        invariant forall id | id in rows ::
                    rows[id] == if id in hit then ReleasedRow(old(rows)[id], availableAt) else old(rows)[id]
        decreases scan
      {
        var id :| id in scan;
        var message := rows[id];
        if Equals(message.owner, owner).And(Equals(message.receipt, receipt)).Holds() {
          message := message.(owner := None);
          message := message.(receipt := None);
          message := message.(leaseUntil := None);
          message := message.(availableAt := availableAt);
          rows := rows[id := message];
          hit := hit + {id};
          affected := affected + 1;
        }
        scan := scan - {id};
      }
      assert hit == Matching(old(rows), owner, receipt);
    }

    ghost method Record(statement: Statement)
      requires Valid()
      modifies this`log
      ensures log == old(log) + [statement]
      ensures Replay(collation, log) == Execute(collation, rows, statement).0
    {
      log := log + [statement];
      assert log[..|log| - 1] == old(log);
    }
  }

  lemma ClaimOneMore(t: Table, chosen: set<Id>, id: Id, owner: string, lease: Time, uuid: Id -> string)
    requires id in t && id !in chosen
    requires forall x | x in chosen + {id} && x in t :: t[x].attempt < MAX_BIGINT
    ensures ClaimAll(t, chosen, owner, lease, uuid).Keys == t.Keys
    ensures ClaimAll(t, chosen, owner, lease, uuid)[id] == t[id]
    ensures ClaimAll(t, chosen + {id}, owner, lease, uuid)
            == ClaimAll(t, chosen, owner, lease, uuid)[id := ClaimedRow(t[id], owner, lease, uuid(id))]
  {
  }
}

/** Interleaved runs. A log is the sequence of statements, issued by any number of clients with
    arbitrary clock values, in the order the database executed them; it starts from an empty table. */
module BatchLog {
  import opened Sql
  import opened BatchStore

  datatype Op = Op(key: Key, statement: Statement)

  type Table = map<Key, Row>

  function Lookup(t: Table, key: Key): Option<Row> {
    if key in t then Some(t[key]) else None
  }

  function Store(t: Table, key: Key, row: Option<Row>): Table {
    if row.Some? then t[key := row.value] else t
  }

  ghost predicate SoundTable(t: Table) {
    forall key | key in t :: key.Checks() && Sound(t[key])
  }

  function Execute(t: Table, op: Op): (result: (Table, Reply))
    requires SoundAt(op.key, Lookup(t, op.key))
  {
    var (row, reply) := Apply(op.key, Lookup(t, op.key), op.statement);
    (Store(t, op.key, row), reply)
  }

  /** The table after a run. Every reachable row is sound. */
  ghost function Replay(log: seq<Op>): (t: Table)
    ensures SoundTable(t)
  {
    if log == [] then map[]
    else
      var before := Replay(log[..|log| - 1]);
      var op := log[|log| - 1];
      ApplyKeepsSound(op.key, Lookup(before, op.key), op.statement);
      Execute(before, op).0
  }

  /** The row under `key` after a run. */
  ghost function RowAfter(log: seq<Op>, key: Key): (row: Option<Row>)
    ensures SoundAt(key, row)
  {
    Lookup(Replay(log), key)
  }

  /** The reply to the statement at position `i`. */
  ghost function ReplyAt(log: seq<Op>, i: nat): Reply
    requires i < |log|
  {
    Execute(Replay(log[..i]), log[i]).1
  }

  /** A statement touches the row under its own key and no other. */
  lemma Advance(log: seq<Op>, key: Key, i: nat)
    requires i < |log|
    ensures log[i].key != key ==> RowAfter(log[..i + 1], key) == RowAfter(log[..i], key)
    ensures log[i].key == key ==>
              RowAfter(log[..i + 1], key) == Apply(key, RowAfter(log[..i], key), log[i].statement).0
    ensures log[i].key == key ==> ReplyAt(log, i) == Apply(key, RowAfter(log[..i], key), log[i].statement).1
  {
    assert log[..i + 1][..i] == log[..i];
    ApplyKeepsSound(log[i].key, RowAfter(log[..i], log[i].key), log[i].statement);
  }
}

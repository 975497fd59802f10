/** Interleaved runs of atomic outbox statements, issued by any number of clients with arbitrary clocks. */
module OutboxLog {
  import opened OutboxStore

  /** The table after a run, starting from an empty one. */
  ghost function Replay(lt: Collation, log: seq<Statement>): Table {
    if log == [] then map[]
    else Execute(lt, Replay(lt, log[..|log| - 1]), log[|log| - 1]).0
  }

  ghost function ReplyAt(lt: Collation, log: seq<Statement>, i: nat): Reply
    requires i < |log|
  {
    Execute(lt, Replay(lt, log[..i]), log[i]).1
  }

  lemma Advance(lt: Collation, log: seq<Statement>, i: nat, j: nat)
    requires j == i + 1 <= |log|
    ensures Replay(lt, log[..j]) == Execute(lt, Replay(lt, log[..i]), log[i]).0
  {
    assert log[..j][..i] == log[..i];
  }

  /** The receipts a statement generates when run on `t`. */
  ghost function Generated(lt: Collation, t: Table, s: Statement): set<string> {
    if Granted(lt, t, s) then
      var c := Candidates(lt, t, s.now, s.skip, s.limit);
      set id | id in Ids(c) :: s.uuid(id)
    else {}
  }

  /** All receipts generated by a run. */
  ghost function Issued(lt: Collation, log: seq<Statement>): set<string> {
    if log == [] then {}
    else
      var before := log[..|log| - 1];
      Issued(lt, before) + Generated(lt, Replay(lt, before), log[|log| - 1])
  }

  lemma IssuedAdvance(lt: Collation, log: seq<Statement>, i: nat, j: nat)
    requires j == i + 1 <= |log|
    ensures Issued(lt, log[..j]) == Issued(lt, log[..i]) + Generated(lt, Replay(lt, log[..i]), log[i])
  {
    assert log[..j][..i] == log[..i];
  }

  /** What is assumed of `gen_random_uuid`: it returns a value it never returned before, row by row. */
  ghost predicate FreshReceipts(lt: Collation, t: Table, issued: set<string>, s: Statement) {
    Granted(lt, t, s) ==>
      var ids := Ids(Candidates(lt, t, s.now, s.skip, s.limit));
      && (forall id | id in ids :: s.uuid(id) !in issued)
      && (forall id, id' | id in ids && id' in ids && id != id' :: s.uuid(id) != s.uuid(id'))
  }

  ghost predicate FreshAt(lt: Collation, log: seq<Statement>, i: nat)
    requires i < |log|
  {
    FreshReceipts(lt, Replay(lt, log[..i]), Issued(lt, log[..i]), log[i])
  }

  ghost predicate Legal(lt: Collation, log: seq<Statement>) {
    forall i | 0 <= i < |log| :: FreshAt(lt, log, i)
  }

  lemma LegalPrefix(lt: Collation, log: seq<Statement>, n: nat)
    requires n <= |log| && Legal(lt, log)
    ensures Legal(lt, log[..n])
  {
    forall i | 0 <= i < n ensures FreshAt(lt, log[..n], i) {
      assert log[..n][..i] == log[..i];
      assert FreshAt(lt, log, i);
    }
  }

  /** Any statement can come next: what a claim needs is a generator that has used none of its values before and
      uses none twice. */
  lemma LegalGoesOn(lt: Collation, log: seq<Statement>, s: Statement)
    requires Legal(lt, log)
    requires s.Claim? ==> forall id :: s.uuid(id) !in Issued(lt, log)
    requires s.Claim? ==> forall id, id' | id != id' :: s.uuid(id) != s.uuid(id')
    ensures Legal(lt, log + [s])
  {
    forall i | 0 <= i < |log + [s]| ensures FreshAt(lt, log + [s], i) {
      if i < |log| {
        assert (log + [s])[..i] == log[..i];
        assert FreshAt(lt, log, i);
      } else {
        assert (log + [s])[..i] == log;
      }
    }
  }
}

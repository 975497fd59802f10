/** Migrations, their validation, and what a plan still has to apply. */
module MigrationPlan {
  import opened Sql
  import opened MigrationVersion

  datatype Migration = Migration(version: UInt64, unit: string, name: string, sql: string, checksum: string)

  const SPACES: set<char> := {
    '\t', '\n', '\U{0b}', '\U{0c}', '\r', ' ', '\U{85}', '\U{a0}', '\U{1680}', '\U{2000}', '\U{2001}', '\U{2002}',
    '\U{2003}', '\U{2004}', '\U{2005}', '\U{2006}', '\U{2007}', '\U{2008}', '\U{2009}', '\U{200a}', '\U{2028}',
    '\U{2029}', '\U{202f}', '\U{205f}', '\U{3000}'}
  const CHECKSUM_LENGTH := 64
  const MAX_TEXT := 512

  /** `strings.TrimSpace(s) == ""`. */
  predicate Blank(s: string) {
    forall i | 0 <= i < |s| :: s[i] in SPACES
  }

  /** Unicode's White_Space property, by code points. */
  predicate WhiteSpace(n: int) {
    || 9 <= n <= 13 || n == 32 || n == 133 || n == 160 || n == 5760 || 8192 <= n <= 8202
    || 8232 <= n <= 8233 || n == 8239 || n == 8287 || n == 12288
  }

  lemma BlankExactly(s: string)
    ensures Blank(s) <==> forall i | 0 <= i < |s| :: WhiteSpace(s[i] as int)
  {
    forall c: char ensures c in SPACES <==> WhiteSpace(c as int) {}
  }

  predicate IsLowerHex(c: char) {
    '0' <= c <= '9' || 'a' <= c <= 'f'
  }

  predicate IsChecksum(s: string) {
    |s| == CHECKSUM_LENGTH && forall i | 0 <= i < |s| :: IsLowerHex(s[i])
  }

  // ----- checksums

  type Octet = x: nat | x < 256

  const HEX_DIGITS := "0123456789abcdef"

  /** Two lower-case hexadecimal digits for every octet. */
  function HexPrint(octets: seq<Octet>): (s: string)
    ensures |s| == 2 * |octets|
  {
    if octets == [] then ""
    else [HEX_DIGITS[octets[0] / 16], HEX_DIGITS[octets[0] % 16]] + HexPrint(octets[1..])
  }

  lemma DigitOfHex(c: char) returns (d: nat)
    requires IsLowerHex(c)
    ensures d < 16 && HEX_DIGITS[d] == c
  {
    d := if c <= '9' then c as int - '0' as int else 10 + (c as int - 'a' as int);
  }

  lemma HexOfDigit(d: nat)
    requires d < 16
    ensures IsLowerHex(HEX_DIGITS[d])
  {
  }

  lemma {:induction false} PrintIsHex(octets: seq<Octet>)
    ensures forall i | 0 <= i < |HexPrint(octets)| :: IsLowerHex(HexPrint(octets)[i])
  {
    if octets == [] {
    } else {
      HexOfDigit(octets[0] / 16);
      HexOfDigit(octets[0] % 16);
      PrintIsHex(octets[1..]);
    }
  }

  lemma PrintFirst(high: nat, low: nat, octet: Octet, rest: seq<Octet>)
    requires high < 16 && low < 16 && octet == 16 * high + low
    ensures HexPrint([octet] + rest) == [HEX_DIGITS[high], HEX_DIGITS[low]] + HexPrint(rest)
  {
    assert octet / 16 == high && octet % 16 == low;
    assert ([octet] + rest)[1..] == rest;
  }

  lemma {:induction false} HexIsPrint(s: string, n: nat) returns (octets: seq<Octet>)
    requires |s| == 2 * n && forall i | 0 <= i < |s| :: IsLowerHex(s[i])
    ensures |octets| == n && HexPrint(octets) == s
  {
    if n == 0 {
      octets := [];
    } else {
      var high := DigitOfHex(s[0]);
      var low := DigitOfHex(s[1]);
      var rest := HexIsPrint(s[2..], n - 1);
      PrintFirst(high, low, 16 * high + low, rest);
      octets := [16 * high + low] + rest;
      assert s == [s[0], s[1]] + s[2..];
    }
  }

  /** A checksum is accepted exactly if it is how 32 octets, the size of a SHA-256 digest, are printed in
      lower-case hexadecimal. */
  lemma ChecksumExactly(s: string)
    ensures IsChecksum(s) <==> exists octets: seq<Octet> :: |octets| == 32 && HexPrint(octets) == s
  {
    if IsChecksum(s) {
      var octets := HexIsPrint(s, 32);
    }
    if octets: seq<Octet> :| |octets| == 32 && HexPrint(octets) == s {
      PrintIsHex(octets);
    }
  }

  predicate IsLowerHexOctet(octet: nat) {
    '0' as int <= octet <= '9' as int || 'a' as int <= octet <= 'f' as int
  }

  predicate AllLowerHex(octets: seq<nat>) {
    forall i | 0 <= i < |octets| :: IsLowerHexOctet(octets[i])
  }

  lemma AllLowerHexJoins(a: seq<nat>, b: seq<nat>)
    ensures AllLowerHex(a + b) <==> AllLowerHex(a) && AllLowerHex(b)
  {
    assert forall i | 0 <= i < |a| :: (a + b)[i] == a[i];
    assert forall i | 0 <= i < |b| :: (a + b)[|a| + i] == b[i];
  }

  /** Whether the octets of a text are hexadecimal digits shows whether its characters are. */
  lemma {:induction false} HexOctets(s: string, n: nat)
    requires n <= |s|
    ensures AllLowerHex(Encoded(s, n)) <==> forall i | 0 <= i < n :: IsLowerHex(s[i])
    ensures AllLowerHex(Encoded(s, n)) ==> |Encoded(s, n)| == n
  {
    if n == 0 {
    } else {
      HexOctets(s, n - 1);
      AllLowerHexJoins(Encoded(s, n - 1), Utf8(s[n - 1]));
      assert AllLowerHex(Utf8(s[n - 1])) <==> IsLowerHex(s[n - 1]) by {
        assert AllLowerHex(Utf8(s[n - 1])) ==> IsLowerHexOctet(Utf8(s[n - 1])[0]);
      }
    }
  }

  datatype Problem = BadVersion | BadModule | BadName | EmptySql | BadChecksum

  /** Whether Apply will send the migration to the database at all. */
  predicate Acceptable(m: Migration) {
    m.version != 0 && !Blank(m.unit) && !Blank(m.name) && !Blank(m.sql) && IsChecksum(m.checksum)
  }

  method Validate(m: Migration) returns (problem: Option<Problem>)
    ensures problem.None? <==> Acceptable(m)
    ensures problem == Some(BadVersion) <==> m.version == 0
    ensures problem == Some(BadModule) <==> m.version != 0 && Blank(m.unit)
    ensures problem == Some(BadName) <==> m.version != 0 && !Blank(m.unit) && Blank(m.name)
    ensures problem == Some(EmptySql) <==> m.version != 0 && !Blank(m.unit) && !Blank(m.name) && Blank(m.sql)
  {
    if m.version == 0 { return Some(BadVersion); }
    if Blank(m.unit) { return Some(BadModule); }
    if Blank(m.name) { return Some(BadName); }
    if Blank(m.sql) { return Some(EmptySql); }
    HexOctets(m.checksum, |m.checksum|);
    var octets := Octets(m.checksum);
    if |octets| != CHECKSUM_LENGTH { return Some(BadChecksum); }
    for i := 0 to |octets|
      invariant forall j | 0 <= j < i :: IsLowerHexOctet(octets[j])
    {
      if !IsLowerHexOctet(octets[i]) { return Some(BadChecksum); }
    }
    return None;
  }

  /** The CHECK constraints of the registry table. */
  predicate RegistryChecks(m: Migration) {
    && 1 <= m.version <= MAX_UINT64
    && Fits(m.unit, MAX_TEXT)
    && Fits(m.name, MAX_TEXT)
    && IsChecksum(m.checksum)
  }

  /** Validation lets through exactly one kind of migration the registry refuses: names that are too long. */
  lemma AcceptableIsRecordable(m: Migration)
    requires Acceptable(m)
    ensures RegistryChecks(m) <==> OctetLength(m.unit) <= 512 && OctetLength(m.name) <= 512
  {
  }

  function Versions(log: seq<Migration>): set<UInt64> {
    set i | 0 <= i < |log| :: log[i].version
  }

  function MissingOne(recorded: set<UInt64>, m: Migration): seq<Migration> {
    if m.version in recorded then [] else [m]
  }

  /** The migrations of a plan whose versions are not recorded yet, in plan order. */
  function Missing(recorded: set<UInt64>, plan: seq<Migration>): seq<Migration> {
    if plan == [] then []
    else MissingOne(recorded, plan[0]) + Missing(recorded, plan[1..])
  }

  /** The registry after inserting rows. */
  function Inserted(registry: map<UInt64, Migration>, rows: seq<Migration>): map<UInt64, Migration> {
    if rows == [] then registry
    else Inserted(registry, rows[..|rows| - 1])[rows[|rows| - 1].version := rows[|rows| - 1]]
  }

  lemma InsertedOne(registry: map<UInt64, Migration>, m: Migration)
    ensures Inserted(registry, [m]) == registry[m.version := m]
  {
    assert [m][..0] == [];
  }

  predicate DistinctVersions(log: seq<Migration>) {
    forall i, j | 0 <= i < j < |log| :: log[i].version != log[j].version
  }

  lemma {:induction false} MissingAreMissing(recorded: set<UInt64>, plan: seq<Migration>)
    ensures forall m | m in Missing(recorded, plan) :: m in plan && m.version !in recorded
    ensures forall m | m in plan && m.version !in recorded :: m in Missing(recorded, plan)
  {
    if plan == [] {
    } else {
      MissingAreMissing(recorded, plan[1..]);
      assert plan == [plan[0]] + plan[1..];
    }
  }

  // ----- plan order

  lemma FirstOrNot(recorded: set<UInt64>, m: Migration, rest: seq<Migration>)
    ensures Missing(recorded, [m] + rest) == MissingOne(recorded, m) + Missing(recorded, rest)
  {
    assert ([m] + rest)[1..] == rest;
  }

  lemma Associates<T>(a: seq<T>, b: seq<T>, c: seq<T>)
    ensures (a + b) + c == a + (b + c)
  {
  }

  /** What is missing of a plan is what is missing of its parts, in their order. */
  lemma {:induction false} MissingJoins(recorded: set<UInt64>, a: seq<Migration>, b: seq<Migration>)
    ensures Missing(recorded, a + b) == Missing(recorded, a) + Missing(recorded, b)
  {
    if a == [] {
      assert a + b == b;
    } else {
      var m, rest := a[0], a[1..];
      assert a == [m] + rest;
      Associates([m], rest, b);
      FirstOrNot(recorded, m, rest);
      FirstOrNot(recorded, m, rest + b);
      MissingJoins(recorded, rest, b);
      Associates(MissingOne(recorded, m), Missing(recorded, rest), Missing(recorded, b));
    }
  }

  lemma {:induction false} NothingMissing(recorded: set<UInt64>, plan: seq<Migration>)
    requires forall i | 0 <= i < |plan| :: plan[i].version in recorded
    ensures Missing(recorded, plan) == []
  {
    if plan == [] {
    } else {
      NothingMissing(recorded, plan[1..]);
    }
  }

  lemma {:induction false} AllMissing(recorded: set<UInt64>, plan: seq<Migration>)
    requires forall i | 0 <= i < |plan| :: plan[i].version !in recorded
    ensures Missing(recorded, plan) == plan
  {
    if plan == [] {
    } else {
      AllMissing(recorded, plan[1..]);
      assert plan == [plan[0]] + plan[1..];
    }
  }

  /** When the registry records exactly the first `n` of a plan, as the core runner demands, what is missing is
      the rest of the plan. */
  lemma MissingIsRest(recorded: set<UInt64>, plan: seq<Migration>, n: nat)
    requires n <= |plan| && DistinctVersions(plan) && recorded == Versions(plan[..n])
    ensures Missing(recorded, plan) == plan[n..]
  {
    assert plan == plan[..n] + plan[n..];
    MissingJoins(recorded, plan[..n], plan[n..]);
    NothingMissing(recorded, plan[..n]);
    AllMissing(recorded, plan[n..]);
  }

  /** `applied` is what the plan has at the positions `at`, none of it recorded. */
  ghost predicate FoundAt(recorded: set<UInt64>, plan: seq<Migration>, at: seq<nat>, applied: seq<Migration>) {
    && |at| == |applied|
    && forall i | 0 <= i < |at| :: at[i] < |plan| && applied[i] == plan[at[i]] && plan[at[i]].version !in recorded
  }

  ghost predicate Increasing(at: seq<nat>) {
    forall i, j | 0 <= i < j < |at| :: at[i] < at[j]
  }

  /** What the plan has at position `p` is not recorded. */
  predicate Unrecorded(recorded: set<UInt64>, plan: seq<Migration>, p: nat) {
    p < |plan| && plan[p].version !in recorded
  }

  /** The migrations at the positions `at`, one after the other; nothing that is not recorded is passed over. */
  ghost predicate InPlanOrder(recorded: set<UInt64>, plan: seq<Migration>, at: seq<nat>, applied: seq<Migration>) {
    && FoundAt(recorded, plan, at, applied) && Increasing(at)
    && forall p: nat, i | Unrecorded(recorded, plan, p) && p !in at && 0 <= i < |at| :: at[i] < p
  }

  /** The positions `at` are those of everything that is not recorded. */
  ghost predicate AllUnrecorded(recorded: set<UInt64>, plan: seq<Migration>, at: seq<nat>) {
    forall p: nat | Unrecorded(recorded, plan, p) :: p in at
  }

  lemma OnePositionMore(recorded: set<UInt64>, plan: seq<Migration>, at: seq<nat>, applied: seq<Migration>,
                        m: Migration, at': seq<nat>, applied': seq<Migration>)
    requires FoundAt(recorded, plan, at, applied) && Increasing(at) && AllUnrecorded(recorded, plan, at)
    requires at' == at + if m.version in recorded then [] else [|plan|]
    requires applied' == applied + MissingOne(recorded, m)
    ensures FoundAt(recorded, plan + [m], at', applied') && Increasing(at') && AllUnrecorded(recorded, plan + [m], at')
  {
    assert forall i | 0 <= i < |at| :: at'[i] == at[i] && applied'[i] == applied[i];
    forall p: nat | Unrecorded(recorded, plan + [m], p) ensures p in at' {
      if p < |plan| {
        assert Unrecorded(recorded, plan, p);
      } else {
        assert at'[|at|] == p;
      }
    }
  }

  /** The positions of what is missing. */
  lemma {:induction false} MissingPositions(recorded: set<UInt64>, plan: seq<Migration>) returns (at: seq<nat>)
    ensures FoundAt(recorded, plan, at, Missing(recorded, plan)) && Increasing(at)
    ensures AllUnrecorded(recorded, plan, at)
  {
    if plan == [] {
      at := [];
    } else {
      var front, m := plan[..|plan| - 1], plan[|plan| - 1];
      var before := MissingPositions(recorded, front);
      at := before + if m.version in recorded then [] else [|front|];
      assert plan == front + [m];
      MissingJoins(recorded, front, [m]);
      OnePositionMore(recorded, front, before, Missing(recorded, front), m, at, Missing(recorded, plan));
    }
  }

  /** The first of what is missing, by their positions in the plan. */
  lemma FirstInPlanOrder(recorded: set<UInt64>, plan: seq<Migration>, k: nat, todo: seq<Migration>)
    returns (at: seq<nat>)
    requires todo == Missing(recorded, plan) && k <= |todo|
    ensures InPlanOrder(recorded, plan, at, todo[..k])
    ensures k == |todo| ==> AllUnrecorded(recorded, plan, at)
  {
    var all := MissingPositions(recorded, plan);
    at := all[..k];
    forall p: nat, i | Unrecorded(recorded, plan, p) && p !in at && 0 <= i < |at| ensures at[i] < p {
      assert p in all;
      var j :| 0 <= j < |all| && all[j] == p;
      assert forall l | 0 <= l < k :: at[l] == all[l];
    }
    if k == |all| {
      assert at == all;
    }
  }

  /** Plans whose migrations the registry takes one after the other. */
  predicate Recordable(recorded: set<UInt64>, todo: seq<Migration>) {
    && DistinctVersions(todo)
    && forall i | 0 <= i < |todo| ::
         Acceptable(todo[i]) && RegistryChecks(todo[i]) && todo[i].version !in recorded
  }

  lemma RecordableOne(recorded: set<UInt64>, m: Migration)
    ensures Recordable(recorded, [m]) <==> Acceptable(m) && RegistryChecks(m) && m.version !in recorded
  {
    assert [m][0] == m;
  }

  lemma RecordableParts(recorded: set<UInt64>, m: Migration, rest: seq<Migration>)
    ensures Recordable(recorded, [m] + rest) <==>
            Recordable(recorded, [m]) && Recordable(recorded + {m.version}, rest)
  {
    var todo := [m] + rest;
    RecordableOne(recorded, m);
    assert forall i | 0 <= i < |rest| :: todo[i + 1] == rest[i];
    assert todo[0] == m;
    if Recordable(recorded, [m]) && Recordable(recorded + {m.version}, rest) {
      forall i | 0 < i < |todo| ensures todo[i] == rest[i - 1] {}
    }
  }

  // ----- a registry that records exactly what took effect

  ghost predicate Records(registry: map<UInt64, Migration>, effects: seq<Migration>) {
    && DistinctVersions(effects)
    && registry.Keys == Versions(effects)
    && (forall m | m in effects ::
          m.version in registry && registry[m.version] == m && Acceptable(m) && RegistryChecks(m))
  }

  lemma VersionsMore(log: seq<Migration>, m: Migration)
    ensures Versions(log + [m]) == Versions(log) + {m.version}
  {
    assert forall i | 0 <= i < |log| :: (log + [m])[i] == log[i];
    assert (log + [m])[|log|] == m;
  }

  lemma RecordingKeeps(registry: map<UInt64, Migration>, effects: seq<Migration>, m: Migration)
    requires Records(registry, effects) && m.version !in registry && Acceptable(m) && RegistryChecks(m)
    ensures Records(registry[m.version := m], effects + [m])
  {
    VersionsMore(effects, m);
    forall i | 0 <= i < |effects| ensures effects[i].version != m.version {
      assert effects[i].version in Versions(effects);
    }
  }

  /** The effects determine the registry. */
  lemma RecordsUnique(registry: map<UInt64, Migration>, registry': map<UInt64, Migration>, effects: seq<Migration>)
    requires Records(registry, effects) && Records(registry', effects)
    ensures registry == registry'
  {
    forall v | v in registry ensures registry'[v] == registry[v] {
      var i :| 0 <= i < |effects| && effects[i].version == v;
      assert effects[i] in effects;
    }
  }

  /** What a registry holds beyond its first entries can be recorded after them. */
  lemma LaterIsRecordable(registry: map<UInt64, Migration>, effects: seq<Migration>,
                          registry': map<UInt64, Migration>, base: seq<Migration>, more: seq<Migration>)
    requires Records(registry, effects) && Records(registry', base) && base + more <= effects
    ensures Recordable(registry'.Keys, more)
  {
    assert forall i | 0 <= i < |base| :: effects[i] == base[i];
    assert forall i | 0 <= i < |more| :: effects[|base| + i] == more[i];
    forall i | 0 <= i < |more|
      ensures Acceptable(more[i]) && RegistryChecks(more[i]) && more[i].version !in Versions(base)
    {
      assert effects[|base| + i] in effects;
      assert forall j | 0 <= j < |base| :: effects[j].version != effects[|base| + i].version;
    }
  }
}

/** Version numbers as the registry stores and returns them: the text of a `numeric(20, 0)` column against
    an unsigned 64-bit integer. */
module MigrationVersion {
  import opened Sql

  const MAX_UINT64: nat := 0xffff_ffff_ffff_ffff

  type UInt64 = x: nat | x <= MAX_UINT64

  predicate IsDigit(c: char) {
    '0' <= c <= '9'
  }

  predicate AllDigits(s: string) {
    forall i | 0 <= i < |s| :: IsDigit(s[i])
  }

  function DigitValue(c: char): (d: nat)
    requires IsDigit(c)
    ensures d < 10
  {
    c as int - '0' as int
  }

  function DigitChar(d: nat): (c: char)
    requires d < 10
    ensures IsDigit(c) && DigitValue(c) == d
  {
    ('0' as int + d) as char
  }

  /** The number a digit string denotes. */
  function Value(s: string): nat
    requires AllDigits(s)
  {
    if s == [] then 0 else 10 * Value(s[..|s| - 1]) + DigitValue(s[|s| - 1])
  }

  /** `strconv.ParseUint(value, 10, 64)`: digits only, at least one, and in range. */
  function ParseUint(s: string): Option<UInt64> {
    if s == [] || !AllDigits(s) || Value(s) > MAX_UINT64 then None else Some(Value(s))
  }

  /** `strconv.FormatUint(version, 10)`, which is also how PostgreSQL prints a `numeric(20, 0)`. */
  function FormatUint(v: nat): (s: string)
    ensures s != [] && AllDigits(s)
  {
    if v < 10 then [DigitChar(v)] else FormatUint(v / 10) + [DigitChar(v % 10)]
  }

  function ParseMigrationVersion(s: string): Option<UInt64> {
    var version := ParseUint(s);
    if version.None? || FormatUint(version.value) != s || version.value == 0 then None else version
  }

  // ----- what it accepts

  lemma {:induction false} FormatDenotes(v: nat)
    ensures Value(FormatUint(v)) == v
    ensures v > 0 ==> FormatUint(v)[0] != '0'
  {
    if v < 10 {
    } else {
      FormatDenotes(v / 10);
      var s := FormatUint(v);
      assert s[..|s| - 1] == FormatUint(v / 10);
    }
  }

  lemma {:induction false} CanonicalPrints(s: string)
    requires s != [] && AllDigits(s) && s[0] != '0'
    ensures Value(s) > 0 && FormatUint(Value(s)) == s
  {
    var front, last := s[..|s| - 1], DigitValue(s[|s| - 1]);
    assert s == front + [s[|s| - 1]];
    if front == [] {
    } else {
      CanonicalPrints(front);
      assert Value(s) / 10 == Value(front) && Value(s) % 10 == last;
    }
  }

  /** Exactly the decimals without leading zeros of 1 to 2^64 - 1 are accepted, and each yields its number. */
  lemma ParseAcceptsExactly(s: string)
    ensures ParseMigrationVersion(s).Some?
            <==> s != [] && AllDigits(s) && s[0] != '0' && Value(s) <= 18446744073709551615
    ensures ParseMigrationVersion(s).Some? ==> ParseMigrationVersion(s).value == Value(s)
  {
    if s != [] && AllDigits(s) {
      FormatDenotes(Value(s));
      if s[0] != '0' {
        CanonicalPrints(s);
      }
    }
  }

  /** Printing and parsing are inverse on 1 to 2^64 - 1, and nothing else parses. */
  lemma VersionRoundTrip(s: string, v: UInt64)
    ensures ParseMigrationVersion(s) == Some(v) <==> v >= 1 && s == FormatUint(v)
  {
    FormatDenotes(v);
    if v >= 1 && s == FormatUint(v) {
      ParseAcceptsExactly(s);
    }
  }

  // ----- numeric order

  /** The first difference between two digit strings of equal length decides which number is smaller. */
  lemma {:induction false} FirstDifferenceDecides(s: string, t: string, i: nat)
    requires AllDigits(s) && AllDigits(t) && i < |s| == |t| && s[..i] == t[..i] && s[i] < t[i]
    ensures Value(s) < Value(t)
  {
    var n := |s| - 1;
    if i == n {
    } else {
      assert s[..n][..i] == s[..i] && t[..n][..i] == t[..i];
      FirstDifferenceDecides(s[..n], t[..n], i);
    }
  }

  lemma {:induction false} FirstDifference(s: string, t: string) returns (i: nat)
    requires |s| == |t| && s != t
    ensures i < |s| && s[..i] == t[..i] && s[i] != t[i]
  {
    if s[0] != t[0] {
      i := 0;
    } else {
      assert s == [s[0]] + s[1..] && t == [t[0]] + t[1..];
      var j := FirstDifference(s[1..], t[1..]);
      i := j + 1;
      assert s[..i] == [s[0]] + s[1..][..j] && t[..i] == [t[0]] + t[1..][..j];
    }
  }

  /** Digit strings of equal length have the order of their numbers, as text, code point by code point. */
  lemma NumericOrder(s: string, t: string)
    requires AllDigits(s) && AllDigits(t) && |s| == |t|
    ensures Value(s) < Value(t) <==> exists i: nat :: i < |s| && s[..i] == t[..i] && s[i] < t[i]
  {
    if i: nat :| i < |s| && s[..i] == t[..i] && s[i] < t[i] {
      FirstDifferenceDecides(s, t, i);
    } else if s != t {
      var i := FirstDifference(s, t);
      FirstDifferenceDecides(t, s, i);
    }
  }
}

/** The part of SQL the stores lean on: nullable columns, the 64-bit integer type
    and three-valued logic (section 9.1 of the PostgreSQL manual). */
module Sql {
  const MAX_BIGINT: int := 0x7fff_ffff_ffff_ffff

  /** `bigint`: storing a value outside this range is a type error here and a run-time error there. */
  type BigInt = x: int | -MAX_BIGINT - 1 <= x <= MAX_BIGINT

  /** A point on some client's clock. Nothing is assumed about how clocks relate. */
  type Time = int

  /** A nullable column: `None` is NULL. */
  datatype Option<+T> = None | Some(value: T)

  function Least(a: int, b: int): int {
    if a < b then a else b
  }

  datatype Tri = True | False | Unknown {
    function And(that: Tri): Tri {
      if this.False? || that.False? then False
      else if this.True? && that.True? then True
      else Unknown
    }

    function Or(that: Tri): Tri {
      if this.True? || that.True? then True
      else if this.False? && that.False? then False
      else Unknown
    }

    function Not(): Tri {
      match this
      case True => False
      case False => True
      case Unknown => Unknown
    }

    /** How WHERE and CASE WHEN read a condition: unknown counts as not satisfied. */
    predicate Holds() {
      True?
    }
  }

  function Truth(b: bool): Tri {
    if b then True else False
  }

  function IsNull<T>(column: Option<T>): Tri {
    Truth(column.None?)
  }

  function Equals<T(==)>(column: Option<T>, value: T): Tri {
    if column.None? then Unknown else Truth(column.value == value)
  }

  function Greater(column: Option<Time>, value: Time): Tri {
    if column.None? then Unknown else Truth(column.value > value)
  }

  function AtMost(column: Option<Time>, value: Time): Tri {
    if column.None? then Unknown else Truth(column.value <= value)
  }

  // ----- text

  /** How many octets a character takes in UTF-8; section 3 of RFC 3629. */
  function Width(c: char): nat {
    if c as int < 0x80 then 1 else if c as int < 0x800 then 2 else if c as int < 0x1_0000 then 3 else 4
  }

  /** The octets of a character. */
  function Utf8(c: char): (octets: seq<nat>)
    ensures |octets| == Width(c)
  {
    var n := c as int;
    if n < 0x80 then [n]
    else if n < 0x800 then [0xc0 + n / 0x40, 0x80 + n % 0x40]
    else if n < 0x1_0000 then [0xe0 + n / 0x1000, 0x80 + n / 0x40 % 0x40, 0x80 + n % 0x40]
    else [0xf0 + n / 0x4_0000, 0x80 + n / 0x1000 % 0x40, 0x80 + n / 0x40 % 0x40, 0x80 + n % 0x40]
  }

  /** The number whose bits the octets carry. */
  function Carried(octets: seq<int>): int
    requires 1 <= |octets| <= 4
  {
    match |octets|
    case 1 => octets[0]
    case 2 => (octets[0] - 192) * 64 + (octets[1] - 128)
    case 3 => ((octets[0] - 224) * 64 + (octets[1] - 128)) * 64 + (octets[2] - 128)
    case _ => (((octets[0] - 240) * 64 + (octets[1] - 128)) * 64 + (octets[2] - 128)) * 64 + (octets[3] - 128)
  }

  /** Groups of six bits. */
  lemma Sextets(n: nat)
    ensures n / 0x1000 == n / 64 / 64 && n / 0x4_0000 == n / 64 / 64 / 64
    ensures 64 * (n / 64) + n % 64 == n && 0 <= n % 64 < 64
  {
  }

  /** The octets carry the character; the first shows how many there are, and the others are recognisable. */
  lemma Utf8Exactly(c: char)
    ensures var octets := Utf8(c);
            && 1 <= |octets| <= 4 && Carried(octets) == c as int
            && (|octets| == 1 <==> 0 <= octets[0] < 128) && (|octets| == 2 <==> 194 <= octets[0] < 224)
            && (|octets| == 3 <==> 224 <= octets[0] < 240) && (|octets| == 4 <==> 240 <= octets[0] < 245)
            && forall i | 1 <= i < |octets| :: 128 <= octets[i] < 192
  {
    var n := c as int;
    Sextets(n);
    Sextets(n / 64);
    Sextets(n / 64 / 64);
  }

  /** How many octets the first `n` characters take. */
  function OctetsUpTo(s: string, n: nat): nat
    requires n <= |s|
  {
    if n == 0 then 0 else OctetsUpTo(s, n - 1) + Width(s[n - 1])
  }

  /** The octets of the first `n` characters. */
  function Encoded(s: string, n: nat): (octets: seq<nat>)
    requires n <= |s|
    ensures |octets| == OctetsUpTo(s, n)
  {
    if n == 0 then [] else Encoded(s, n - 1) + Utf8(s[n - 1])
  }

  /** `octet_length`. */
  function OctetLength(s: string): nat {
    OctetsUpTo(s, |s|)
  }

  /** The text as it is stored. */
  function Octets(s: string): (octets: seq<nat>)
    ensures |octets| == OctetLength(s)
  {
    Encoded(s, |s|)
  }

  /** `octet_length(s) BETWEEN 1 AND limit`. */
  predicate Fits(s: string, limit: nat) {
    1 <= OctetLength(s) <= limit
  }

  /** The text columns of both tables hold 1 to 512 octets. */
  predicate TextFits(s: string) {
    1 <= OctetLength(s) <= 512
  }
}

/** ORDER BY: a finite set has exactly one arrangement in strictly ascending order, and sorting reaches it
    whatever order the elements are visited in. */
module Ordering {
  ghost predicate Asymmetric<T>(lt: (T, T) -> bool, a: T, b: T) {
    !(lt(a, b) && lt(b, a))
  }

  ghost predicate Comparable<T>(lt: (T, T) -> bool, a: T, b: T) {
    a == b || lt(a, b) || lt(b, a)
  }

  ghost predicate Transitive<T>(lt: (T, T) -> bool, a: T, b: T, c: T) {
    lt(a, b) && lt(b, c) ==> lt(a, c)
  }

  // The laws are instances of named predicates so that proofs cite the instances they use.
  ghost predicate StrictTotal<T(!new)>(lt: (T, T) -> bool) {
    && (forall a, b :: Asymmetric(lt, a, b))
    && (forall a, b :: Comparable(lt, a, b))
    && (forall a, b, c :: Transitive(lt, a, b, c))
  }

  ghost predicate Ascending<T>(lt: (T, T) -> bool, s: seq<T>) {
    forall i, j | 0 <= i < j < |s| :: lt(s[i], s[j])
  }

  function Elements<T>(s: seq<T>): set<T> {
    set x | x in s
  }

  /** `s` lists exactly the elements of `all`, each once, in order. */
  ghost predicate Arranges<T>(lt: (T, T) -> bool, s: seq<T>, all: set<T>) {
    Ascending(lt, s) && Elements(s) == all
  }

  lemma LaterElements<T(!new)>(lt: (T, T) -> bool, s: seq<T>)
    requires StrictTotal(lt) && Ascending(lt, s) && s != []
    ensures forall x | x in Elements(s[1..]) :: lt(s[0], x)
    ensures Elements(s[1..]) == Elements(s) - {s[0]}
  {
    assert Asymmetric(lt, s[0], s[0]);
    assert s == [s[0]] + s[1..];
  }

  /** Arrangements are unique. */
  lemma {:induction false} ArrangementUnique<T(!new)>(lt: (T, T) -> bool, s: seq<T>, s': seq<T>)
    requires StrictTotal(lt) && Ascending(lt, s) && Ascending(lt, s') && Elements(s) == Elements(s')
    ensures s == s'
  {
    assert s != [] ==> s[0] in Elements(s);
    assert s' != [] ==> s'[0] in Elements(s');
    if s == [] || s' == [] {
    } else {
      assert s[0] in Elements(s') && s'[0] in Elements(s);
      assert Asymmetric(lt, s[0], s'[0]);
      LaterElements(lt, s);
      LaterElements(lt, s');
      assert s == [s[0]] + s[1..] && s' == [s'[0]] + s'[1..];
      ArrangementUnique(lt, s[1..], s'[1..]);
    }
  }

  lemma ArrangementSize<T(!new)>(lt: (T, T) -> bool, s: seq<T>)
    requires StrictTotal(lt) && Ascending(lt, s)
    ensures |Elements(s)| == |s|
  {
    if s == [] {
    } else {
      LaterElements(lt, s);
      assert Elements(s) == {s[0]} + Elements(s[1..]);
      ArrangementSize(lt, s[1..]);
    }
  }

  /** Puts `x` at its place in an ascending sequence. */
  function Insert<T(!new)>(lt: (T, T) -> bool, x: T, s: seq<T>): (r: seq<T>)
    requires StrictTotal(lt) && Ascending(lt, s) && x !in s
    ensures Arranges(lt, r, Elements(s) + {x})
  {
    if s == [] then [x]
    else if lt(x, s[0]) then
      PrependArranges(lt, x, s);
      [x] + s
    else
      LaterElements(lt, s);
      assert Comparable(lt, x, s[0]);
      var rest := Insert(lt, x, s[1..]);
      assert forall y | y in rest :: y in Elements(rest);
      PrependArranges(lt, s[0], rest);
      [s[0]] + rest
  }

  lemma PrependArranges<T(!new)>(lt: (T, T) -> bool, x: T, s: seq<T>)
    requires StrictTotal(lt) && Ascending(lt, s)
    requires (s != [] && lt(x, s[0])) || forall y | y in s :: lt(x, y)
    ensures Arranges(lt, [x] + s, {x} + Elements(s))
  {
    assert forall j | 0 < j < |s| :: lt(s[0], s[j]) && Transitive(lt, x, s[0], s[j]);
  }

  lemma {:induction false} ArrangementExists<T(!new)>(lt: (T, T) -> bool, all: set<T>) returns (s: seq<T>)
    requires StrictTotal(lt)
    ensures Arranges(lt, s, all) && |s| == |all|
  {
    if all == {} {
      s := [];
    } else {
      var x :| x in all;
      var rest := ArrangementExists(lt, all - {x});
      assert x !in Elements(rest);
      s := Insert(lt, x, rest);
      ArrangementSize(lt, s);
    }
  }

  /** The arrangement of a set. */
  ghost function Arrange<T(!new)>(lt: (T, T) -> bool, all: set<T>): (s: seq<T>)
    requires StrictTotal(lt)
    ensures Arranges(lt, s, all) && |s| == |all|
  {
    assert exists s :: Arranges(lt, s, all) && |s| == |all| by {
      var s := ArrangementExists(lt, all);
    }
    var s :| Arranges(lt, s, all) && |s| == |all|;
    s
  }

  /** Sorting a set, taking its elements in any order. */
  method Sort<T(!new, ==)>(lt: (T, T) -> bool, all: set<T>) returns (s: seq<T>)
    requires StrictTotal(lt)
    ensures s == Arrange(lt, all)
  {
    s := [];
    var rest := all;
    while rest != {}
      invariant rest <= all && Arranges(lt, s, all - rest)
      decreases rest
    {
      var x :| x in rest;
      assert x !in Elements(s);
      s := Insert(lt, x, s);
      rest := rest - {x};
      assert all - rest == (all - rest - {x}) + {x};
    }
    ArrangementUnique(lt, s, Arrange(lt, all));
  }

  lemma RestArranges<T(!new)>(lt: (T, T) -> bool, s: seq<T>, all: set<T>, n: nat)
    requires StrictTotal(lt) && Arranges(lt, s, all) && n <= |s|
    ensures Arranges(lt, s[n..], all - Elements(s[..n]))
  {
    assert forall x | x in s :: x in s[..n] || x in s[n..] by {
      assert s == s[..n] + s[n..];
    }
    forall i, j | 0 <= i < n <= j < |s| ensures s[i] != s[j] {
      assert lt(s[i], s[j]) && Asymmetric(lt, s[i], s[j]);
    }
  }

  /** An arrangement is the arrangement of its elements. */
  lemma ArrangementIs<T(!new)>(lt: (T, T) -> bool, s: seq<T>, all: set<T>)
    requires StrictTotal(lt) && Arranges(lt, s, all)
    ensures s == Arrange(lt, all)
  {
    ArrangementUnique(lt, s, Arrange(lt, all));
  }

  /** `c` holds the first elements of `all`: everything left out comes after everything taken. */
  ghost predicate Firsts<T(!new)>(lt: (T, T) -> bool, c: seq<T>, all: set<T>) {
    && Ascending(lt, c)
    && Elements(c) <= all
    && forall p, q | p in c && q in all && q !in c :: lt(p, q)
  }

  lemma PrefixIsFirsts<T(!new)>(lt: (T, T) -> bool, all: set<T>, n: nat)
    requires StrictTotal(lt) && n <= |all|
    ensures Firsts(lt, Arrange(lt, all)[..n], all)
  {
    var s := Arrange(lt, all);
    var c := s[..n];
    forall x | x in c ensures x in all { assert x in Elements(s); }
    forall p, q | p in c && q in all && q !in c ensures lt(p, q) {
      assert q in Elements(s);
      var i :| 0 <= i < n && c[i] == p;
      var j :| 0 <= j < |s| && s[j] == q;
      assert forall l | 0 <= l < n :: c[l] in c && c[l] == s[l];
      assert n <= j;
    }
  }

  lemma FirstsArePrefix<T(!new)>(lt: (T, T) -> bool, c: seq<T>, all: set<T>)
    requires StrictTotal(lt) && Firsts(lt, c, all)
    ensures |c| <= |all| && c == Arrange(lt, all)[..|c|]
  {
    var rest := Arrange(lt, all - Elements(c));
    var s := c + rest;
    forall i, j | 0 <= i < |c| && 0 <= j < |rest| ensures lt(c[i], rest[j]) {
      assert rest[j] in Elements(rest);
    }
    assert forall x | x in all :: x in c || x in rest by {
      assert forall x | x in all && x !in c :: x in Elements(rest);
    }
    assert forall x | x in rest :: x in Elements(rest);
    assert Elements(s) == all;
    ArrangementIs(lt, s, all);
    assert c == s[..|c|];
  }
}

/** Finding the first position of a run at which something happens. */
module Search {
  lemma First(p: nat -> bool, low: nat, high: nat) returns (m: nat)
    requires exists i: nat :: low <= i < high && p(i)
    ensures low <= m < high && p(m)
    ensures forall l | low <= l < m :: !p(l)
  {
    m := low;
    while !p(m)
      invariant low <= m < high
      invariant forall l | low <= l < m :: !p(l)
      invariant exists i: nat :: m <= i < high && p(i)
      decreases high - m
    {
      m := m + 1;
    }
  }
}

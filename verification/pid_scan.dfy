/**
 The allocation scan as the allocator performs it: one forward pass over
 [next, hi], then a second pass over [lo, next). It is proved to make exactly
 the choice of the circular next-fit function `PidManager.AllocatePid`.
 */
module PidScan {
  import opened PidManager

  /** Two ids that are both the next-fit choice are the same id, because the
      circular probe order gives every id of the range its own position. */
  lemma NextFitUnique(m: Manager, a: int, b: int)
    requires Valid(m)
    requires IsNextFit(m, a) && IsNextFit(m, b)
    ensures a == b
  {
    // Neither can be probed before the other, since each is free.
    assert Dist(m, a) == Dist(m, b);
  }

  /** Probes [next, hi] upwards, then [lo, next) upwards, and takes the first
      free id it meets; the result is the circular next-fit allocation. */
  method AllocatePidScan(m: Manager) returns (pid: int, m': Manager)
    requires Valid(m)
    ensures (pid, m') == AllocatePid(m)
  {
    if !m.initialized {
      return Failed, m;
    }
    var start := m.next;
    var p := start;
    while p <= m.hi
      invariant start <= p <= m.hi + 1
      invariant forall j :: start <= j < p ==> m.bitmap[j]
    {
      if !m.bitmap[p] {
        assert IsNextFit(m, p);
        NextFitUnique(m, p, AllocatePid(m).0);
        return p, m.(bitmap := m.bitmap[p := true], next := After(m, p));
      }
      p := p + 1;
    }
    p := m.lo;
    while p < start
      invariant m.lo <= p <= start
      invariant forall j :: m.lo <= j < p ==> m.bitmap[j]
    {
      if !m.bitmap[p] {
        assert IsNextFit(m, p);
        NextFitUnique(m, p, AllocatePid(m).0);
        return p, m.(bitmap := m.bitmap[p := true], next := After(m, p));
      }
      p := p + 1;
    }
    assert Exhausted(m);
    return Failed, m;
  }
}

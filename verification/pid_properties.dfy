/**
 Properties of the allocator that relate several operations: initialisation
 resets everything, a freshly initialised map hands out lo, lo + 1, ..., hi and then fails,
 no id is handed out twice, and a released id is reused first.
 */
module PidProperties {
  import opened PidManager

  /** Initialising twice gives the same manager as initialising once, and
      the result does not depend on what was allocated before. */
  lemma AllocateMapResets(m1: Manager, m2: Manager)
    requires Valid(m1) && Valid(m2)
    requires m1.lo == m2.lo && m1.hi == m2.hi
    ensures AllocateMap(m1) == AllocateMap(m2)
    ensures AllocateMap(AllocateMap(m1).1) == AllocateMap(m1)
  {
  }

  /** Performs `n` allocations in a row, with no release in between. */
  function AllocateMany(m: Manager, n: nat): (r: (seq<int>, Manager))
    requires Valid(m)
    ensures Valid(r.1) && |r.0| == n
    ensures r.1.lo == m.lo && r.1.hi == m.hi
    decreases n
  {
    if n == 0 then ([], m)
    else
      var (pid, m1) := AllocatePid(m);
      var (rest, m2) := AllocateMany(m1, n - 1);
      ([pid] + rest, m2)
  }

  /** After a run of allocations, every id handed out is allocated, nothing
      allocated before was freed, and no id was handed out twice. */
  lemma {:induction false} NoDoubleAllocation(m: Manager, n: nat)
    requires Valid(m)
    ensures forall q :: IsAllocated(m, q) ==> IsAllocated(AllocateMany(m, n).1, q)
    ensures forall i :: 0 <= i < n && AllocateMany(m, n).0[i] != Failed ==>
      && !IsAllocated(m, AllocateMany(m, n).0[i])
      && IsAllocated(AllocateMany(m, n).1, AllocateMany(m, n).0[i])
    ensures forall i, k :: 0 <= i < k < n && AllocateMany(m, n).0[i] != Failed ==>
      AllocateMany(m, n).0[i] != AllocateMany(m, n).0[k]
    decreases n
  {
    if n > 0 {
      var (pid, m1) := AllocatePid(m);
      NoDoubleAllocation(m1, n - 1);
      var (rest, m2) := AllocateMany(m1, n - 1);
      assert AllocateMany(m, n).0 == [pid] + rest;
      forall i | 0 <= i < n && AllocateMany(m, n).0[i] != Failed
        ensures !IsAllocated(m, AllocateMany(m, n).0[i])
        ensures IsAllocated(m2, AllocateMany(m, n).0[i])
      {
        if i > 0 {
          assert rest[i - 1] == AllocateMany(m, n).0[i];
        }
      }
      forall i, k | 0 <= i < k < n && AllocateMany(m, n).0[i] != Failed
        ensures AllocateMany(m, n).0[i] != AllocateMany(m, n).0[k]
      {
        if i > 0 {
          assert rest[i - 1] == AllocateMany(m, n).0[i];
          assert rest[k - 1] == AllocateMany(m, n).0[k];
        } else if rest[k - 1] != Failed {
          assert IsAllocated(m1, pid);
        }
      }
    }
  }

  /** The state of a freshly initialised map after its first `k` allocations: exactly
      lo .. lo + k - 1 are in use and the cursor sits just past them. */
  predicate PrefixAllocated(m: Manager, k: int)
    requires Valid(m)
  {
    && m.initialized
    && 0 <= k <= Capacity(m)
    && m.next == (if k < Capacity(m) then m.lo + k else m.lo)
    && forall j :: 0 <= j < |m.bitmap| ==> m.bitmap[j] == (m.lo <= j < m.lo + k)
  }

  /** From a map whose first `k` ids are taken, the next allocation hands
      out lo + k. */
  lemma PrefixStep(m: Manager, k: int)
    requires Valid(m) && PrefixAllocated(m, k) && k < Capacity(m)
    ensures AllocatePid(m).0 == m.lo + k
    ensures PrefixAllocated(AllocatePid(m).1, k + 1)
  {
    var id := AllocatePid(m).0;
    assert !m.bitmap[m.lo + k];
    assert id != Failed;
    assert Dist(m, m.lo + k) == 0;
    var m1 := AllocatePid(m).1;
    assert m1.bitmap == m.bitmap[id := true];
  }

  /** Starting from a map whose first `k` ids are taken, `n` more allocations
      hand out lo + k, ..., lo + k + n - 1 in that order. */
  lemma {:induction false} PrefixRun(m: Manager, k: int, n: nat)
    requires Valid(m) && PrefixAllocated(m, k) && k + n <= Capacity(m)
    ensures AllocateMany(m, n).0 == seq(n, i => m.lo + k + i)
    ensures PrefixAllocated(AllocateMany(m, n).1, k + n)
    decreases n
  {
    if n > 0 {
      PrefixStep(m, k);
      var m1 := AllocatePid(m).1;
      PrefixRun(m1, k + 1, n - 1);
      assert AllocateMany(m, n) == ([m.lo + k] + AllocateMany(m1, n - 1).0, AllocateMany(m1, n - 1).1);
    }
  }

  /** A freshly initialised map hands out lo, lo + 1, ..., hi, one per call,
      and the call after that fails: exactly hi - lo + 1 allocations succeed. */
  lemma FreshMapExhaustion(m: Manager)
    requires Valid(m)
    ensures AllocateMany(AllocateMap(m).1, Capacity(m)).0 == seq(Capacity(m), i => m.lo + i)
    ensures Exhausted(AllocateMany(AllocateMap(m).1, Capacity(m)).1)
    ensures AllocatePid(AllocateMany(AllocateMap(m).1, Capacity(m)).1).0 == Failed
  {
    var ready := AllocateMap(m).1;
    assert PrefixAllocated(ready, 0);
    PrefixRun(ready, 0, Capacity(m));
  }

  /** Releasing an id that is not after the cursor makes it the very next id
      handed out. */
  lemma ReleaseIsReusedFirst(m: Manager, pid: int)
    requires Valid(m) && m.initialized && InRange(m, pid) && pid <= m.next
    ensures AllocatePid(ReleasePid(m, pid)).0 == pid
  {
    var r := ReleasePid(m, pid);
    assert r.next == pid && !r.bitmap[pid];
    assert Dist(r, pid) == 0;
  }

  /** Once the range is exhausted, releasing any id of it lets exactly one
      allocation succeed, and that allocation returns the released id. */
  lemma RecoveryAfterExhaustion(m: Manager, pid: int)
    requires Valid(m) && m.initialized && Exhausted(m) && InRange(m, pid)
    ensures AllocatePid(ReleasePid(m, pid)).0 == pid
    ensures AllocatePid(AllocatePid(ReleasePid(m, pid)).1).0 == Failed
  {
    var r := ReleasePid(m, pid);
    var (again, m1) := AllocatePid(r);
    assert again != Failed by {
      assert !r.bitmap[pid];
    }
    // `pid` is the only free id, so it is the next-fit choice.
    assert again == pid;
    assert Exhausted(m1) by {
      forall j | m1.lo <= j <= m1.hi
        ensures m1.bitmap[j]
      {
        assert IsAllocated(m1, j);
      }
    }
  }

  /** Allocating an id and then releasing it restores every slot. */
  lemma AllocateReleaseRoundTrip(m: Manager)
    requires Valid(m)
    requires AllocatePid(m).0 != Failed
    ensures forall q ::
      IsAllocated(ReleasePid(AllocatePid(m).1, AllocatePid(m).0), q) == IsAllocated(m, q)
  {
  }

  /** The two-process demonstration on a 1..3 manager: three allocations
      return 1, 2, 3, the fourth fails, and after releasing 2 the next
      allocation returns 2. */
  lemma SmallRangeScenario()
    ensures New(1, 3).Success?
    ensures AllocateMany(AllocateMap(New(1, 3).value).1, 4).0 == [1, 2, 3, Failed]
    ensures AllocatePid(ReleasePid(AllocateMany(AllocateMap(New(1, 3).value).1, 4).1, 2)).0 == 2
  {
    var m0 := AllocateMap(New(1, 3).value).1;
    FreshMapExhaustion(New(1, 3).value);
    var (three, full) := AllocateMany(m0, 3);
    assert three == [1, 2, 3];
    var (pids, m3) := AllocateMany(m0, 4);
    assert AllocateMany(m0, 4) == (three + [Failed], full) by {
      AllocateManySplit(m0, 3);
    }
    RecoveryAfterExhaustion(full, 2);
  }

  /** Allocating n + 1 times is allocating n times and then once more. */
  lemma {:induction false} AllocateManySplit(m: Manager, n: nat)
    requires Valid(m)
    ensures AllocateMany(m, n + 1).0 == AllocateMany(m, n).0 + [AllocatePid(AllocateMany(m, n).1).0]
    ensures AllocateMany(m, n + 1).1 == AllocatePid(AllocateMany(m, n).1).1
    decreases n
  {
    if n > 0 {
      AllocateManySplit(AllocatePid(m).1, n - 1);
    }
  }
}

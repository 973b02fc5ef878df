/**
 Arbitrary sequences of operations on one manager. Over any such run the
 cursor stays in the range with every id below it allocated. As a result
 every allocation hands out the lowest free id, and releasing a free id
 changes nothing. A caller that keeps its own set of live ids, as the
 randomised test does, is never given an id it already holds.
 */
module PidRuns {
  import opened PidManager

  /** One call a caller can make on the manager. */
  datatype Op = Init | Alloc | Release(pid: int)

  /** The manager after one call. */
  function Step(m: Manager, op: Op): (r: Manager)
    requires Valid(m)
    ensures Valid(r) && r.lo == m.lo && r.hi == m.hi
  {
    match op
    case Init => AllocateMap(m).1
    case Alloc => AllocatePid(m).1
    case Release(pid) => ReleasePid(m, pid)
  }

  /** Performs `ops` in order. Returns what each `Alloc` returned, in order,
      and the final manager. */
  function Run(m: Manager, ops: seq<Op>): (r: (seq<int>, Manager))
    requires Valid(m)
    ensures Valid(r.1) && r.1.lo == m.lo && r.1.hi == m.hi
    decreases |ops|
  {
    if ops == [] then ([], m)
    else
      var (outs, last) := Run(Step(m, ops[0]), ops[1..]);
      if ops[0].Alloc? then ([AllocatePid(m).0] + outs, last) else (outs, last)
  }

  /** Allocation keeps every id below the cursor allocated. The id it hands
      out is never below the cursor, so the wrap-around scan over
      [lo, next) never finds a free id. */
  lemma AllocatePidKeepsInvariant(m: Manager)
    requires Valid(m) && NoFreeBelowCursor(m)
    ensures NoFreeBelowCursor(AllocatePid(m).1)
    ensures AllocatePid(m).0 == Failed || AllocatePid(m).0 >= m.next
  {
    var (id, m1) := AllocatePid(m);
    if id != Failed {
      // A free id cannot lie below the cursor.
      assert id >= m.next;
      forall j | m1.lo <= j < m1.next
        ensures m1.bitmap[j]
      {
        if j != id && j >= m.next {
          assert Dist(m, j) < Dist(m, id);
          assert m.bitmap[j];
        }
      }
    }
  }

  /** Release keeps every id below the cursor allocated. */
  lemma ReleasePidKeepsInvariant(m: Manager, pid: int)
    requires Valid(m) && NoFreeBelowCursor(m)
    ensures NoFreeBelowCursor(ReleasePid(m, pid))
  {
  }

  /** Every call keeps every id below the cursor allocated. */
  lemma StepKeepsInvariant(m: Manager, op: Op)
    requires Valid(m) && NoFreeBelowCursor(m)
    ensures NoFreeBelowCursor(Step(m, op))
  {
    match op
    case Init =>
    case Alloc => AllocatePidKeepsInvariant(m);
    case Release(pid) => ReleasePidKeepsInvariant(m, pid);
  }

  /** Every run from a valid manager with no free id below the cursor ends in
      such a manager, with the cursor still in [lo, hi]. */
  lemma {:induction false} RunKeepsInvariant(m: Manager, ops: seq<Op>)
    requires Valid(m) && NoFreeBelowCursor(m)
    ensures NoFreeBelowCursor(Run(m, ops).1)
    ensures m.lo <= Run(m, ops).1.next <= m.hi
    decreases |ops|
  {
    if ops != [] {
      StepKeepsInvariant(m, ops[0]);
      RunKeepsInvariant(Step(m, ops[0]), ops[1..]);
    }
  }

  /** Every state reachable from construction has its cursor in [lo, hi]
      and every id below the cursor allocated. */
  lemma ReachableStatesKeepInvariant(minPid: int, maxPid: int, ops: seq<Op>)
    requires New(minPid, maxPid).Success?
    ensures NoFreeBelowCursor(Run(New(minPid, maxPid).value, ops).1)
    ensures minPid <= Run(New(minPid, maxPid).value, ops).1.next <= maxPid
  {
    RunKeepsInvariant(New(minPid, maxPid).value, ops);
  }

  /** On reachable states the next-fit policy takes the lowest free id of
      the range, the same choice a first-fit scan from lo would make. */
  lemma AllocateTakesLowestFree(m: Manager)
    requires Valid(m) && NoFreeBelowCursor(m)
    requires AllocatePid(m).0 != Failed
    ensures forall j :: m.lo <= j < AllocatePid(m).0 ==> IsAllocated(m, j)
  {
    var id := AllocatePid(m).0;
    AllocatePidKeepsInvariant(m);
    forall j | m.lo <= j < id
      ensures m.bitmap[j]
    {
      if j >= m.next {
        assert Dist(m, j) < Dist(m, id);
      }
    }
  }

  /** After any release on a reachable state, the next allocation succeeds
      and returns an id no larger than the one released. It returns that
      exact id when every id below it was allocated. */
  lemma ReleasedIdReusedBeforeHigherIds(m: Manager, pid: int)
    requires Valid(m) && NoFreeBelowCursor(m) && m.initialized && InRange(m, pid)
    ensures AllocatePid(ReleasePid(m, pid)).0 != Failed
    ensures AllocatePid(ReleasePid(m, pid)).0 <= pid
    ensures (forall j :: m.lo <= j < pid ==> IsAllocated(m, j)) ==>
      AllocatePid(ReleasePid(m, pid)).0 == pid
  {
    var r := ReleasePid(m, pid);
    assert !r.bitmap[pid];
    ReleasePidKeepsInvariant(m, pid);
    AllocateTakesLowestFree(r);
    var id := AllocatePid(r).0;
    // `pid` is free after the release, so the lowest free id is at most it.
    assert !IsAllocated(r, pid);
    assert !IsAllocated(r, id);
    assert IsAllocated(r, id) == (IsAllocated(m, id) && id != pid);
  }

  /** On reachable states, releasing an id that is already free leaves the
      manager exactly as it was, cursor included. */
  lemma ReleaseOfFreeIdIsNoOp(m: Manager, pid: int)
    requires Valid(m) && NoFreeBelowCursor(m)
    requires !IsAllocated(m, pid)
    ensures ReleasePid(m, pid) == m
  {
    if m.initialized && InRange(m, pid) {
      assert m.bitmap[pid := false] == m.bitmap;
    }
  }

  /** Releases each id of `pids` in order. */
  function ReleaseEach(m: Manager, pids: seq<int>): (r: Manager)
    requires Valid(m)
    ensures Valid(r) && r.lo == m.lo && r.hi == m.hi && r.initialized == m.initialized
    decreases |pids|
  {
    if pids == [] then m else ReleaseEach(ReleasePid(m, pids[0]), pids[1..])
  }

  /** Releasing a list of ids frees every one of them and keeps every id
      below the cursor allocated. */
  lemma {:induction false} ReleaseEachFreesAll(m: Manager, pids: seq<int>)
    requires Valid(m) && NoFreeBelowCursor(m) && m.initialized
    ensures NoFreeBelowCursor(ReleaseEach(m, pids))
    ensures forall i :: 0 <= i < |pids| ==> !IsAllocated(ReleaseEach(m, pids), pids[i])
    decreases |pids|
  {
    if pids != [] {
      var r := ReleasePid(m, pids[0]);
      ReleasePidKeepsInvariant(m, pids[0]);
      ReleaseEachFreesAll(r, pids[1..]);
      forall i | 0 <= i < |pids|
        ensures !IsAllocated(ReleaseEach(m, pids), pids[i])
      {
        if i == 0 {
          ReleasePreservesFree(r, pids[1..], pids[0]);
        } else {
          assert pids[1..][i - 1] == pids[i];
        }
      }
    }
  }

  /** Releases never allocate: an id free before a list of releases is free
      after it. */
  lemma {:induction false} ReleasePreservesFree(m: Manager, pids: seq<int>, q: int)
    requires Valid(m) && !IsAllocated(m, q)
    ensures !IsAllocated(ReleaseEach(m, pids), q)
    decreases |pids|
  {
    if pids != [] {
      ReleasePreservesFree(ReleasePid(m, pids[0]), pids[1..], q);
    }
  }

  /** After releasing a non-empty list of in-range ids on a reachable
      initialised state, as the exhaustion test does with every id it held,
      the next allocation succeeds. It returns lo when lo was among the ids
      released. */
  lemma AllocateAfterReleasingAll(m: Manager, pids: seq<int>)
    requires Valid(m) && NoFreeBelowCursor(m) && m.initialized
    requires |pids| > 0 && forall i :: 0 <= i < |pids| ==> InRange(m, pids[i])
    ensures AllocatePid(ReleaseEach(m, pids)).0 != Failed
    ensures m.lo in pids ==> AllocatePid(ReleaseEach(m, pids)).0 == m.lo
  {
    var r := ReleaseEach(m, pids);
    ReleaseEachFreesAll(m, pids);
    assert !r.bitmap[pids[0]];
    AllocateTakesLowestFree(r);
    if m.lo in pids {
      var i :| 0 <= i < |pids| && pids[i] == m.lo;
      assert !IsAllocated(r, m.lo);
    }
  }

  /** A manager that has not been initialised ignores every allocation and
      release: each allocation returns `Failed` and the manager never
      changes. */
  lemma {:induction false} UninitialisedIsInert(m: Manager, ops: seq<Op>)
    requires Valid(m) && !m.initialized
    requires forall i :: 0 <= i < |ops| ==> !ops[i].Init?
    ensures Run(m, ops).1 == m
    ensures forall i :: 0 <= i < |Run(m, ops).0| ==> Run(m, ops).0[i] == Failed
    decreases |ops|
  {
    if ops != [] {
      assert Step(m, ops[0]) == m;
      UninitialisedIsInert(m, ops[1..]);
    }
  }

  /** The caller's set `live` is exactly the manager's allocated ids. Before
      initialisation both are empty. */
  predicate Tracks(m: Manager, live: set<int>)
    requires Valid(m)
  {
    live == LiveSet(m) && (m.initialized || live == {})
  }

  /** Replays `ops` for a caller that adds every id it is given to `live`,
      removes every id it releases, and empties `live` when it initialises
      the map. Holds when every id handed out is in range and not in `live`
      at that moment. */
  predicate NoDuplicateGrants(m: Manager, live: set<int>, ops: seq<Op>)
    requires Valid(m)
    decreases |ops|
  {
    if ops == [] then true
    else
      match ops[0]
      case Init => NoDuplicateGrants(AllocateMap(m).1, {}, ops[1..])
      case Alloc =>
        var (id, m1) := AllocatePid(m);
        if id == Failed then NoDuplicateGrants(m1, live, ops[1..])
        else InRange(m, id) && id !in live && NoDuplicateGrants(m1, live + {id}, ops[1..])
      case Release(pid) => NoDuplicateGrants(ReleasePid(m, pid), live - {pid}, ops[1..])
  }

  /** While the caller's `live` set tracks the manager, no run of
      allocations and releases gives the caller an id it already holds. */
  lemma {:induction false} TrackedCallerNeverDuplicates(m: Manager, live: set<int>, ops: seq<Op>)
    requires Valid(m) && Tracks(m, live)
    ensures NoDuplicateGrants(m, live, ops)
    decreases |ops|
  {
    if ops != [] {
      match ops[0]
      case Init =>
        var m1 := AllocateMap(m).1;
        assert LiveSet(m1) == {};
        TrackedCallerNeverDuplicates(m1, {}, ops[1..]);
      case Alloc =>
        var (id, m1) := AllocatePid(m);
        if id == Failed {
          TrackedCallerNeverDuplicates(m1, live, ops[1..]);
        } else {
          assert LiveSet(m1) == live + {id};
          TrackedCallerNeverDuplicates(m1, live + {id}, ops[1..]);
        }
      case Release(pid) =>
        var m1 := ReleasePid(m, pid);
        assert LiveSet(m1) == live - {pid};
        TrackedCallerNeverDuplicates(m1, live - {pid}, ops[1..]);
    }
  }

  /** The randomised test: from a newly built manager, with the caller's
      live set starting empty, any mix of initialisation, allocation and
      release never hands out an id the caller still holds. */
  lemma RandomisedTestNeverDuplicates(minPid: int, maxPid: int, ops: seq<Op>)
    requires New(minPid, maxPid).Success?
    ensures NoDuplicateGrants(New(minPid, maxPid).value, {}, ops)
  {
    var m := New(minPid, maxPid).value;
    assert LiveSet(m) == {};
    TrackedCallerNeverDuplicates(m, {}, ops);
  }
}

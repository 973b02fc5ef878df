/**
 A bounded process-id allocator over the closed range [lo, hi].

 The manager keeps one allocation flag per id (the table is indexed by the id
 itself, so it has hi + 1 entries and the ones below lo are never used), a
 cursor `next` from which the next allocation starts probing, and a flag that
 says whether the map has been initialised. Allocation is next-fit: the first
 free id in circular order starting at the cursor wins.
 */
module PidManager {

  /** Bounds used when the manager is built without explicit ones. */
  const DefaultMinPid: int := 100
  const DefaultMaxPid: int := 1000

  /** Value returned by an allocation that fails, whether because the map was
      never initialised or because every id is in use. */
  const Failed: int := -1

  datatype Option<+T> = None | Some(value: T)

  datatype Result<+T, +E> = Success(value: T) | Failure(error: E)

  datatype ConstructError = InvalidRange

  datatype Manager = Manager(
    lo: int,            // smallest id handed out
    hi: int,            // largest id handed out
    bitmap: seq<bool>,  // bitmap[id] is true iff id is allocated
    next: int,          // first id probed by the next allocation
    initialized: bool   // set once the map has been initialised
  )

  /** The invariant every manager built by `New` keeps. */
  predicate Valid(m: Manager) {
    && 0 <= m.lo <= m.hi
    && |m.bitmap| == m.hi + 1
    && m.lo <= m.next <= m.hi
  }

  /** Number of ids the manager can hand out. */
  function Capacity(m: Manager): (n: int)
    requires Valid(m)
    ensures n >= 1
  {
    m.hi - m.lo + 1
  }

  /** True iff `pid` lies in [lo, hi]; independent of allocation state. */
  predicate InRange(m: Manager, pid: int) {
    m.lo <= pid <= m.hi
  }

  /** Whether `pid` is currently allocated; false for any id out of range. */
  function IsAllocated(m: Manager, pid: int): (r: bool)
    requires Valid(m)
    ensures r ==> InRange(m, pid)
    ensures InRange(m, pid) ==> (r <==> m.bitmap[pid])
  {
    if pid < m.lo || pid > m.hi then false else m.bitmap[pid]
  }

  /** The ids currently allocated. */
  function LiveSet(m: Manager): (live: set<int>)
    requires Valid(m)
    ensures forall q :: q in live <==> IsAllocated(m, q)
  {
    set j | m.lo <= j <= m.hi && m.bitmap[j]
  }

  /** Every id of the range below the cursor is allocated. Construction and
      initialisation set this up, and allocation and release keep it, so it
      holds in every state a sequence of operations can reach. */
  predicate NoFreeBelowCursor(m: Manager)
    requires Valid(m)
  {
    forall j :: m.lo <= j < m.next ==> m.bitmap[j]
  }

  /** Every id of the range is in use. */
  predicate Exhausted(m: Manager)
    requires Valid(m)
  {
    forall j :: m.lo <= j <= m.hi ==> m.bitmap[j]
  }

  /** Builds a manager over [minPid, maxPid]; fails on a negative lower bound
      or an empty range. The new manager is not yet initialised. */
  function New(minPid: int := DefaultMinPid, maxPid: int := DefaultMaxPid): (r: Result<Manager, ConstructError>)
    ensures r.Failure? <==> (minPid < 0 || maxPid < minPid)
    ensures r.Success? ==>
      && Valid(r.value)
      && r.value.lo == minPid && r.value.hi == maxPid
      && r.value.next == minPid
      && !r.value.initialized
      && (forall q :: !IsAllocated(r.value, q))
  {
    if minPid < 0 || maxPid < minPid then Failure(InvalidRange)
    else Success(Manager(minPid, maxPid, seq(maxPid + 1, _ => false), minPid, false))
  }

  /** Initialises (or re-initialises) the map: every id becomes free, the
      cursor returns to lo, and the manager is marked initialised. The status
      returned is always 1. */
  function AllocateMap(m: Manager): (r: (int, Manager))
    requires Valid(m)
    ensures r.0 == 1
    ensures Valid(r.1)
    ensures r.1.lo == m.lo && r.1.hi == m.hi
    ensures r.1.initialized
    ensures r.1.next == m.lo
    ensures forall q :: !IsAllocated(r.1, q)
  {
    (1, m.(bitmap := seq(|m.bitmap|, _ => false), next := m.lo, initialized := true))
  }

  /** Position of id `j` in the circular probe order that starts at the
      cursor: the cursor itself is at 0, hi is followed by lo. */
  function Dist(m: Manager, j: int): (d: int)
    requires Valid(m)
    ensures InRange(m, j) ==> 0 <= d < Capacity(m)
  {
    if j >= m.next then j - m.next else j - m.next + Capacity(m)
  }

  /** The id probed at position `k` of the circular order. */
  function Probe(m: Manager, k: int): (j: int)
    requires Valid(m) && 0 <= k < Capacity(m)
    ensures InRange(m, j)
    ensures Dist(m, j) == k
  {
    if m.next + k <= m.hi then m.next + k else m.next + k - Capacity(m)
  }

  /** `id` is the next-fit choice: a free id of the range such that every id
      probed before it is allocated. */
  predicate IsNextFit(m: Manager, id: int)
    requires Valid(m)
  {
    && InRange(m, id)
    && !m.bitmap[id]
    && forall j :: m.lo <= j <= m.hi && Dist(m, j) < Dist(m, id) ==> m.bitmap[j]
  }

  /** The first free id at or after position `k` of the circular order. */
  function FirstFreeFrom(m: Manager, k: int): (r: Option<int>)
    requires Valid(m) && 0 <= k <= Capacity(m)
    ensures r.Some? ==>
      && InRange(m, r.value)
      && !m.bitmap[r.value]
      && k <= Dist(m, r.value)
      && forall j :: InRange(m, j) && k <= Dist(m, j) < Dist(m, r.value) ==> m.bitmap[j]
    ensures r.None? ==> forall j :: InRange(m, j) && k <= Dist(m, j) ==> m.bitmap[j]
    decreases Capacity(m) - k
  {
    if k == Capacity(m) then None
    else if !m.bitmap[Probe(m, k)] then Some(Probe(m, k))
    else FirstFreeFrom(m, k + 1)
  }

  /** The cursor position just past `id`, wrapping from hi back to lo. */
  function After(m: Manager, id: int): (c: int)
    requires InRange(m, id)
    ensures InRange(m, c)
    ensures c == m.lo || c == id + 1
  {
    if id + 1 > m.hi then m.lo else id + 1
  }

  /** Hands out the next-fit id, marking it allocated and moving the cursor
      just past it; returns `Failed` and leaves the manager unchanged when the
      map is not initialised or the range is exhausted. */
  function AllocatePid(m: Manager): (r: (int, Manager))
    requires Valid(m)
    ensures Valid(r.1)
    ensures r.0 == Failed <==> (!m.initialized || Exhausted(m))
    ensures r.0 == Failed ==> r.1 == m
    ensures r.0 != Failed ==>
      && IsNextFit(m, r.0)
      && IsAllocated(r.1, r.0)
      && (forall q :: q != r.0 ==> IsAllocated(r.1, q) == IsAllocated(m, q))
      && r.1.next == (if r.0 == m.hi then m.lo else r.0 + 1)
      && r.1.lo == m.lo && r.1.hi == m.hi && r.1.initialized
  {
    if !m.initialized then (Failed, m)
    else
      match FirstFreeFrom(m, 0)
      case None => (Failed, m)
      case Some(id) => (id, m.(bitmap := m.bitmap[id := true], next := After(m, id)))
  }

  /** Frees `pid` and pulls the cursor back to it when it lies before the
      cursor. Does nothing when the map is not initialised or `pid` is out of
      range. The slot is not required to be allocated; on the states that
      operations reach, no free id lies below the cursor, so releasing a free
      id changes nothing. */
  function ReleasePid(m: Manager, pid: int): (r: Manager)
    requires Valid(m)
    ensures Valid(r)
    ensures !m.initialized || !InRange(m, pid) ==> r == m
    ensures m.initialized && InRange(m, pid) ==>
      && (forall q :: IsAllocated(r, q) == (IsAllocated(m, q) && q != pid))
      && r.next == (if pid < m.next then pid else m.next)
      && r.lo == m.lo && r.hi == m.hi && r.initialized
  {
    if !m.initialized then m
    else if pid < m.lo || pid > m.hi then m
    else
      var m' := m.(bitmap := m.bitmap[pid := false]);
      if pid < m'.next then m'.(next := pid) else m'
  }
}

# PID manager allocator in Dafny

This project models the `PIDManager` class of a small C++ process-id
allocator. It also proves the allocator's allocation policy.

The manager owns the closed id range `[min, max]`. Its state has three parts:

- a per-id allocation bitmap;
- a cursor `next`, where the next allocation starts probing;
- an `initialized` flag.

Allocation is next-fit. The allocator scans `[next, max]` first, then
`[min, next)`. It takes the first free id it meets, marks it allocated and
moves the cursor just past it; after `max` the cursor wraps to `min`. The
call returns `-1` when the map was never initialised or every id is in use.

Releasing an id frees its slot. When the id lies below the cursor, the
cursor moves back to it, so that id is the next one reused.

The model is in four modules:

- `PidManager` (pid_manager.dfy) holds the state and the operations.
  - The state is an immutable `Manager` record. The bitmap is a `seq<bool>`
    indexed by the id itself, with `max + 1` entries, the same layout as the
    C++ vector.
  - The constructor, `allocate_map`, `allocate_pid` and `release_pid` are
    the pure functions `New`, `AllocateMap`, `AllocatePid` and `ReleasePid`.
    Each takes the current state and returns the result together with the
    new state.
  - `New` returns a `Result`. Its `Failure(InvalidRange)` case stands for the
    `std::invalid_argument` the constructor throws. The default bounds
    100 and 1000 are the constants `DefaultMinPid` and `DefaultMaxPid`.
  - `AllocatePid` is specified with the circular probe order. `Dist` gives
    each id its position in that order, counted from the cursor.
    `FirstFreeFrom` finds the first free id in that order. `IsNextFit`
    describes that choice without reference to any scan.
  - `InRange` and `IsAllocated` are the two queries. They are pure functions,
    so they cannot change the state. The accessors `initialized()`, `min()`
    and `max()` are the record fields `initialized`, `lo` and `hi`.
    `LiveSet` is the set of allocated ids.
- `PidScan` (pid_scan.dfy) holds `AllocatePidScan`. This method is the
  C++ two-loop scan, written with loop invariants. It is proved to return
  exactly what `AllocatePid` returns.
- `PidProperties` (pid_properties.dfy) holds properties of short call
  sequences:
  - re-initialising resets the map;
  - a run of allocations never hands out an id twice;
  - a fresh map hands out `min, min+1, ..., max` and then fails;
  - a released id at or below the cursor is the next one reused;
  - the manager recovers after exhaustion.
- `PidRuns` (pid_runs.dfy) covers any sequence of `Init`, `Alloc` and
  `Release(pid)` calls, replayed by `Run`:
  - every reachable state satisfies `NoFreeBelowCursor`;
  - an uninitialised manager ignores every call;
  - releasing a list of ids frees them all, after which allocation succeeds;
  - the randomised test's caller, which tracks its own live set through
    allocations and releases, is never handed an id it still holds.

Every reachable state keeps an invariant beyond `lo <= next <= hi`: each
id in `[lo, next)` is allocated (`NoFreeBelowCursor`). Construction and
`allocate_map` set the cursor to `lo`. Allocation only moves it past ids
it has just found taken. Release only moves it down to the id it frees.
Two consequences follow:

- The policy is written as a next-fit scan, not a first-fit scan from
  `min`. Even so, on reachable states the id it hands out is always the
  lowest free id (`AllocateTakesLowestFree`). The wrap-around loop at
  pid_manager.hpp:46-52 never finds a free id. After a release, the next
  allocation returns an id no larger than the released one
  (`ReleasedIdReusedBeforeHigherIds`).
- `release_pid` clears the slot and then runs `if (pid < next) next = pid`
  without checking that the slot was allocated. On an arbitrary state,
  releasing a free id below the cursor would move the cursor. No reachable
  state has such an id, so releasing a free id is a true no-op, as the
  comment at pid_manager.hpp:56 says (`ReleaseOfFreeIdIsNoOp`).
  `ReleasePid` itself models the code as written, for every valid state.

## Model

| member | source | states |
|---|---|---|
| PidManager.New | pid_manager.hpp:11-18 | Construction fails exactly when `min < 0` or `max < min`. Otherwise the manager has the given bounds and `next == min`, is not initialised, and reports no id as allocated. |
| PidManager.AllocateMap | pid_manager.hpp:20-31 | Returns 1. Afterwards the manager is initialised, `next == min`, no id is allocated and the bounds are unchanged. |
| PidManager.InRange | pid_manager.hpp:68 | True exactly when `min <= pid <= max`, whatever the allocation state. |
| PidManager.IsAllocated | pid_manager.hpp:69-72 | Returns false for every id outside `[min, max]`. Inside the range it returns the id's allocation flag. |
| PidManager.FirstFreeFrom | pid_manager.hpp:38-52 | Finds the first free id at or after position `k` of the circular order that starts at the cursor. The result is in range and free, every id probed between `k` and it is allocated, and no result means every id from position `k` on is allocated. |
| PidManager.AllocatePid | pid_manager.hpp:33-54 | Returns -1 exactly when the manager is uninitialised or every id in `[min, max]` is allocated, and then leaves the state unchanged. Otherwise it returns the next-fit id: in range, free before the call and allocated after it, with every id probed before it already allocated. No other id changes, and `next` becomes `id + 1`, or `min` when `id == max`. |
| PidManager.ReleasePid | pid_manager.hpp:56-62 | Leaves the manager unchanged when it is uninitialised or the id is out of range. Otherwise exactly that id becomes free, and `next` becomes the smaller of `next` and the id. |
| PidScan.NextFitUnique | pid_manager.hpp:38-52 | The next-fit choice is unique: two ids that both satisfy it are equal. So the policy fixes exactly one id. |
| PidScan.AllocatePidScan | pid_manager.hpp:34-54 | The forward scan over `[next, max]` followed by the scan over `[min, next)` returns the same id and state as the circular next-fit `AllocatePid`. |
| PidProperties.AllocateMapResets | pid_manager.hpp:21-26 | Initialisation is idempotent. Its result depends only on the bounds, so it discards every earlier allocation and cursor position. |
| PidProperties.NoDoubleAllocation | test_pid_manager.cpp:144-149 | Over any run of allocations with no release in between: every id handed out was free before and is allocated at the end, nothing allocated earlier is freed, and no id is returned twice. |
| PidProperties.PrefixRun | pid_manager.hpp:38-45 | When exactly the first `k` ids of the range are taken and the cursor is just past them, the next `n` allocations return `min + k, ..., min + k + n - 1` in order. |
| PidProperties.FreshMapExhaustion | test_pid_manager.cpp:136-152 | After initialisation, `max - min + 1` allocations return `min, ..., max` in order. The range is then exhausted, and the next allocation returns -1. |
| PidProperties.ReleaseIsReusedFirst | pid_manager.hpp:61 | Releasing an in-range id that is not past the cursor makes it the very next id allocated. |
| PidProperties.RecoveryAfterExhaustion | pid_manage_main.cpp:64-70 | When the range is exhausted, releasing any id makes the next allocation return that id, and the allocation after that fails again. |
| PidProperties.AllocateReleaseRoundTrip | pid_manager.hpp:57-61 | Allocating an id and then releasing it restores the allocation state of every id. |
| PidProperties.SmallRangeScenario | pid_manage_main.cpp:61-71 | On a 1..3 manager, four allocations return 1, 2, 3, -1. After releasing 2, the next allocation returns 2. |
| PidRuns.AllocatePidKeepsInvariant | pid_manager.hpp:38-52 | Allocation keeps every id below the cursor allocated. The id it hands out is never below the cursor, so the wrap-around scan never finds a free id. |
| PidRuns.ReleasePidKeepsInvariant | pid_manager.hpp:57-61 | Release keeps every id below the cursor allocated, because it moves the cursor only down to the id it frees. |
| PidRuns.RunKeepsInvariant | pid_manager.hpp:21-61 | From a state with no free id below the cursor, any sequence of initialisations, allocations and releases ends in such a state, with `min <= next <= max`. |
| PidRuns.ReachableStatesKeepInvariant | pid_manager.hpp:11-61 | Every state reachable from a successfully built manager has `min <= next <= max` and every id below the cursor allocated. |
| PidRuns.AllocateTakesLowestFree | pid_manager.hpp:38-52 | On reachable states, a successful allocation returns the lowest free id of the range. |
| PidRuns.ReleasedIdReusedBeforeHigherIds | pid_manager.hpp:57-61 | On a reachable initialised state, after releasing an in-range id, the next allocation succeeds and returns an id no larger than it. It returns exactly that id when every lower id was allocated. |
| PidRuns.ReleaseOfFreeIdIsNoOp | pid_manager.hpp:56-61 | On reachable states, releasing an id that is not allocated leaves the manager unchanged, cursor included. |
| PidRuns.ReleaseEachFreesAll | pid_manager.hpp:57-61 | On a reachable initialised state, releasing a list of ids in order leaves every one of them free and keeps every id below the cursor allocated. |
| PidRuns.ReleasePreservesFree | pid_manager.hpp:57-61 | Releases never allocate: an id that is free before a list of releases is still free after it. |
| PidRuns.AllocateAfterReleasingAll | test_pid_manager.cpp:154-157 | On a reachable initialised state, after releasing a non-empty list of in-range ids, the next allocation succeeds. It returns `min` when `min` was among the released ids, as it is when every id of an exhausted range is released. |
| PidRuns.UninitialisedIsInert | test_pid_manager.cpp:59-73 | Before initialisation, any sequence of allocations and releases leaves the manager unchanged, and every allocation in it returns -1. |
| PidRuns.TrackedCallerNeverDuplicates | test_pid_manager.cpp:105-124 | While the caller's live set equals the manager's allocated ids, no mix of allocations and releases hands the caller an in-use id: each id granted is in range and not in the caller's live set. |
| PidRuns.RandomisedTestNeverDuplicates | test_pid_manager.cpp:95-125 | From a newly built manager and an empty live set, any sequence of initialisations, allocations and releases passes the randomised test's duplicate check. |

## Left out

- The `try`/`catch` in `allocate_map` and its `-1` / uninitialised failure path are not modelled. `std::fill` on an existing vector cannot throw, so `AllocateMap` always returns 1.
- The `min_pid > max_pid` guard in `allocate_pid` has no branch in the model. It is dead code: the constructor rejects that range, and `Valid`, which every operation requires, rules it out.
- C++ `int` overflow is not modelled, and neither is allocation failure when the vector is sized. This covers `maxPid + 1` and its `size_t` cast. Ids are unbounded mathematical integers.
- The `MIN_PID` / `MAX_PID` macros are modelled as the default values of `New`'s parameters.
- The demo drivers (pid_manage_main.cpp, test.cpp) are not modelled, apart from the small-range scenario. They use `fork`, pipes, `waitpid`, a one-byte opcode protocol and console output, which are I/O rather than allocator logic.
- The randomised test in test_pid_manager.cpp does not draw its operations from a Mersenne-Twister generator in the model. `RandomisedTestNeverDuplicates` quantifies over every sequence of operations instead, which covers any sequence the generator could produce.
- The mutable C++ object is modelled as a value, and each operation returns the new state. Single ownership without concurrency, as the class assumes, makes the two equivalent.

# OFP timer engine, modelled in Dafny

This project models the timer engine of OpenFastPath (`src/ofp_timer.c`). The
engine has two resolutions:

- Deadlines below a threshold (OFP_TIMER_MAX_US) are armed in the platform's
  hardware timer pool. This is the *short path*.
- Longer deadlines go on a wheel of 8192 one-second buckets (`long_table`).
  A cursor (`sec_counter`) moves round the wheel, one slot per tick of a
  self-rearming one-second timer (`one_sec`). This is the *long path*.

A long timer's handle is `(id++ << 13) | slot | 0x80000000`, where `id` is a
global generation counter. `ofp_timer_cancel` routes on bit 31. A long handle
is looked up in the bucket its low 13 bits name. Any other handle goes to the
hardware pool.

Files:

- `types.dfy` (module `Types`): 32-bit handles and the request record
  (`struct ofp_timer_internal`). It also holds the events the model records in
  place of side effects: a callback invocation is a `Firing`, and a pool buffer
  is a `Buf`.
- `handle.dfy` (module `Handle`): the handle codec. The bitwise operators on
  `uint32_t` are written as arithmetic on integers below 2^32.
- `wheel.dfy` (module `Wheel`): the pure side.
  - Cursor arithmetic.
  - Search and unlink within a bucket.
  - The bookkeeping of which buffers are held by armed timers.
  - The placement invariant: every wheel entry's handle names its own bucket.
- `timer.dfy` (module `Timer`): the shared context (`struct ofp_timer_mem`) as
  the class `TimerContext`. It offers `ofp_timer_start`, `ofp_timer_cancel`,
  `ofp_timer_handle`, `one_sec` and `ofp_timer_ticks`.
  - The wheel is an array of buckets. Each bucket is a sequence, head first.
  - The hardware pool is reduced to the list of timers it holds armed.
  - Every callback invocation, every buffer handed out, every buffer freed
    and every buffer freed by a successful cancel is recorded in a field. A
    callback invocation is recorded together with the buffer of the request it
    was made for.
  - The invariant `Valid()` says four things. Every handle sits in the bucket
    it names. Short handles have bit 31 clear, differ from INVALID and differ
    from each other. Every buffer ever handed out is
    either held by exactly one armed timer or has been freed, never both and
    never twice. Every buffer freed was freed on behalf of exactly one firing
    or one successful cancel.
- `scenarios.dfy` (module `Scenarios`): whole-engine runs on a fresh context.
  - A 2-second timer fires on the second tick, with its argument.
  - Two timers armed into one slot fire last-armed first.
  - A short timer cancelled at once never fires.
  - Any number of arm/cancel cycles leaves no buffer held.
  - With an INVALID value that has bit 31 set, a long timer handed that value
    cannot be cancelled (see "## Findings").

Each spinlock-protected region is one step of a method. `one_sec` is split
into `ExpireNext` and the re-arm. `ExpireNext` covers the locked detach and the
unlocked walk over the detached bucket.

Two consequences of the code worth stating:

- A tick advances the cursor first and then expires the bucket it now points
  at (`src/ofp_timer.c:61-63`). So a long timer of `sec` seconds fires on tick
  `sec`, and one of 0 or 8192 seconds waits a full revolution.
- Bit 31 overwrites the top bit of the shifted counter, so a handle keeps only
  18 bits of the counter. `id` is one global counter, bumped by every long arm
  whatever its slot. Two long arms therefore get the same handle when they land
  in the same slot and their counter values are a multiple of 2^18 apart.

## Model

| member | source | states |
|---|---|---|
| Handle.IsLong | src/ofp_timer.c:279 | a handle takes the long path of cancel exactly when bit 31 is set, that is, exactly when it is at least 2^31 |
| Handle.SlotOf | src/ofp_timer.c:282 | the bucket a handle names is always inside the 8192-slot table |
| Handle.EncodeLong | src/ofp_timer.c:226-227 | a long handle has bit 31 set. Its low 13 bits give back the slot it was built for. Bits 13..30 give back the generation counter modulo 2^18. |
| Handle.PackedValue | src/ofp_timer.c:227 | the packed handle as a number is 2^31 + (counter mod 2^18) * 8192 + slot, with the 32-bit truncation of the shift written out |
| Handle.EncodeInjective | src/ofp_timer.c:227 | two long handles are equal exactly when they name the same slot and their counters agree modulo 2^18 (both directions) |
| Handle.GenerationAlias | src/ofp_timer.c:227 | two long arms into the same slot whose counter values lie 2^18 apart get the same handle |
| Handle.DecodeEncode | src/ofp_timer.c:276-282 | every 32-bit value with bit 31 set is the encoding of its own slot and counter bits, so it takes the long path of cancel |
| Wheel.TargetSlot | src/ofp_timer.c:219-226 | the slot is inside the table. A deadline of 0 s or of 8192 s lands on the current cursor slot. |
| Wheel.NextCursor | src/ofp_timer.c:61 | one tick keeps the cursor inside the table |
| Wheel.NextCursorMoves | src/ofp_timer.c:61 | a tick always moves the cursor: to the next slot, or from the last slot back to 0 |
| Wheel.CursorAfterSum | src/ofp_timer.c:55-74 | after `n` ticks the cursor has moved `n` slots round the wheel, modulo 8192 |
| Wheel.ExpiryTick | src/ofp_timer.c:61-63 | the tick that expires the bucket a `sec`-second arm went into is tick `sec` and no earlier one within a revolution, or tick 8192 for `sec == 0`. This holds in both directions. |
| Wheel.FirstIndex | src/ofp_timer.c:284-297 | the bucket scan stops at the first entry with a matching id. "Not found" holds exactly when no entry matches. |
| Wheel.DistinctArm | src/ofp_timer.c:249-256 | arming a timer under a native handle the pool does not hold keeps the armed handles pairwise distinct |
| Wheel.DistinctDrop | src/ofp_timer.c:301-312 | giving up one armed timer keeps the others distinct, and the handle given up is no longer among them |
| Wheel.RemoveAt | src/ofp_timer.c:287-290 | unlinking one entry keeps every other entry, in order |
| Wheel.Firings | src/ofp_timer.c:66-71 | the walk over a detached bucket invokes one callback per entry, in list order, each with its own argument and on behalf of its own request |
| Wheel.FiredBufsWalk | src/ofp_timer.c:66-71 | the walk adds exactly the detached list's buffers to those fired for |
| Wheel.DeliveredFire | src/ofp_timer.c:335-337 | firing a request and then freeing its buffer keeps every release explained by one firing or one cancel |
| Wheel.DeliveredWalk | src/ofp_timer.c:66-71 | walking a detached list keeps every release explained by one firing or one cancel |
| Wheel.DeliveredCancel | src/ofp_timer.c:291 | a successful cancel that frees a buffer keeps every release explained by one firing or one cancel |
| Wheel.AtMostOnce | src/ofp_timer.c:66-71 | at-most-once delivery. For every buffer, the times it is held, fired for and cancelled add up to the times it was handed out. A request whose buffer was handed out once fires at most once and is never both fired and cancelled. It is still armed exactly when it has neither fired nor been cancelled. |
| Wheel.BufsAppend | src/ofp_timer.c:69 | freeing the buffers of a list one more entry at a time frees each buffer once |
| Wheel.RemoveAtBufs | src/ofp_timer.c:287-291 | unlinking entry `k` gives up exactly that entry's buffer |
| Wheel.WalkStep | src/ofp_timer.c:66-71 | one more step of the walk adds one firing and one freed buffer |
| Wheel.WheelBufsUpdate | src/ofp_timer.c:228-229 | replacing one bucket changes the wheel's held buffers by exactly the difference between the old and new bucket |
| Wheel.WheelBufsEmpty | src/ofp_timer.c:43 | an all-empty table holds no buffer |
| Wheel.PlacedPush | src/ofp_timer.c:226-229 | pushing a request whose handle names the bucket keeps every entry in the bucket its handle names |
| Wheel.PlacedReplace | src/ofp_timer.c:287-290 | replacing a bucket by a sub-list keeps the placement invariant |
| Wheel.FoundByHandle | src/ofp_timer.c:282-286 | an entry on the wheel lives in the bucket its handle names, and a scan of that bucket finds a match |
| Wheel.NoDupRemoved | src/ofp_timer.c:291 | once freed, a buffer that was held once is held no more |
| Wheel.AccountedPush | src/ofp_timer.c:228-229 | arming a fresh buffer on the wheel adds exactly that buffer to the held ones and keeps the books |
| Wheel.AccountedArm | src/ofp_timer.c:249-256 | arming a fresh buffer in the hardware pool keeps the books |
| Wheel.AccountedUnlink | src/ofp_timer.c:287-291 | unlinking and freeing a wheel entry keeps the books, and its buffer is no longer held |
| Wheel.AccountedDrop | src/ofp_timer.c:308-312 | taking a timer out of the hardware pool and freeing its buffer keeps the books, and its buffer is no longer held |
| Wheel.AccountedDetach | src/ofp_timer.c:62-69 | detaching a bucket and freeing its buffers keeps the books |
| Wheel.AccountedSettled | src/ofp_timer.c:291 | once everything handed out has been freed, no armed timer holds a buffer |
| Timer.ToInt32 | src/ofp_timer.c:349 | an unsigned value converted to a 32-bit `int` is the one value in [-2^31, 2^31) that is congruent to it modulo 2^32 |
| Timer.Ticks | src/ofp_timer.c:344-350 | 0 when the thread has no mapped context. Otherwise the pool's 64-bit tick counter narrowed to a 32-bit `int`: in [-2^31, 2^31) and congruent to the counter modulo 2^32. |
| Timer.TicksSmall | src/ofp_timer.c:344-350 | the counter comes back unchanged exactly while it is below 2^31. Between 2^31 and 2^32 it comes back 2^32 lower, as a negative number. |
| Timer.TimerContext.constructor | src/ofp_timer.c:36-47 | the zeroed shared block: empty wheel, cursor 0, counter 0, invariant established |
| Timer.TimerContext.Start | src/ofp_timer.c:180-266 | At or above the threshold: the request goes on the head of bucket `(cursor + tmo/10^6) mod 8192`, the handle encodes the old counter and that slot, the counter goes up by one, and nothing else changes. Below the threshold: the hardware pool holds one more timer, with request id 0, and the handle is its native handle. On both paths the buffer becomes held, and the invariant is kept. |
| Timer.TimerContext.ArmLong | src/ofp_timer.c:217-232 | the locked region of the long path: slot choice, handle, counter increment and head insertion |
| Timer.TimerContext.ArmShort | src/ofp_timer.c:234-263 | the short path's effect: one more armed hardware timer carrying the request |
| Timer.TimerContext.Cancel | src/ofp_timer.c:268-325 | INVALID gives 0 and changes nothing. A long handle unlinks the first matching entry of its bucket, frees its buffer, records it as cancelled and gives 0, or gives -1 and changes nothing. A long timer on the wheel whose handle differs from INVALID is always found and unlinked. A short handle never touches the wheel, and on a hit the pool no longer holds it. |
| Timer.TimerContext.CancelChecked | src/ofp_timer.c:276-299 | the corrected cancel: bit 31 is tested before INVALID. Every long timer on the wheel is found and unlinked with result 0, whatever its handle. INVALID with nothing behind it still gives 0 and changes nothing. |
| Timer.TimerContext.CancelLong | src/ofp_timer.c:279-299 | the scan loop: the first entry with that id is unlinked, freed and recorded as cancelled, and 0 is returned. Otherwise the result is -1 with no change. |
| Timer.TimerContext.CancelShort | src/ofp_timer.c:301-324 | the hardware pool gives up the timer if it still holds it, and its buffer is freed and recorded as cancelled with result 0, and the pool no longer holds that handle. Otherwise the result is -1. |
| Timer.TimerContext.DeliverShort | src/ofp_timer.c:327-340 | an expired short timer runs its callback once with its argument, on behalf of its request. Its buffer is freed and the pool no longer holds it. |
| Timer.TimerContext.ExpireNext | src/ofp_timer.c:60-71 | the cursor advances by one and that bucket is emptied. Every request it held fires once, in list order, and has its buffer freed once. The held buffers shrink by exactly those. |
| Timer.TimerContext.Dispatch | src/ofp_timer.c:66-71 | the walk over a detached list appends its firings and its freed buffers, in list order |
| Timer.TimerContext.OneSec | src/ofp_timer.c:55-75 | a tick expires the next bucket and re-arms itself one second ahead, on the wheel into the slot after the new cursor, or in the hardware pool |
| Scenarios.LongTimerFiresOnSecondTick | src/ofp_timer.c:217-232 | a 2-second timer does not fire on the first tick. It fires once, with argument "x", on the second, and its buffer is freed. |
| Scenarios.SameSlotFiresLifo | src/ofp_timer.c:228-229 | two timers armed into one slot with no tick between fire last-armed first |
| Scenarios.ShortStartThenCancel | src/ofp_timer.c:301-324 | a 500 us timer cancelled at once: cancel gives 0, nothing fires, its buffer is freed |
| Scenarios.ArmCancelLeavesNothing | src/ofp_timer.c:279-299 | `n` arm/cancel cycles on the long path, for any INVALID value whose slot is not the one these arms use: every cancel gives 0, nothing fires, `n` buffers are freed and none stays held |
| Scenarios.ArmCancelOnce | src/ofp_timer.c:217-299 | one such cycle on a context that holds nothing: the cancel gives 0, the buffer is freed and nothing stays held |
| Scenarios.FirstArmIsInvalid | src/ofp_timer.c:219-227 | on a fresh context a one-second arm lands in slot 1 with counter 0, and its handle is 0x80000001 |
| Scenarios.CancelOfInvalidHandleStillFires | src/ofp_timer.c:276-277 | with INVALID = 0x80000001, the first one-second arm is handed INVALID. Cancelling it gives 0, yet the timer fires on the next tick. |
| Scenarios.CheckedCancelOfInvalidHandle | src/ofp_timer.c:279-299 | the same run with the corrected cancel: the cancel gives 0 and nothing fires |

## Left out

- Initialisation and lookup (`ofp_timer_init`, `ofp_timer_lookup_shared_memory`): these are creation of pools, queues and shared memory. The model starts from the zeroed context its constructor builds.
- Fatal exits when an allocation fails, or when `shm` stays NULL after lookup: the model receives the allocated buffer (`buf`) and hardware timer (`hw`) as parameters, so these failures cannot occur in it.
- Deadlines beyond the 8192-second horizon: the source spins forever (`while (1) { }`), so `Start` requires `tmo / 10^6 <= 8192`.
- The argument copy: `memcpy` into a buffer of OFP_TIMER_ARG_LEN bytes overflows when `arglen` is larger, so `Start` requires `|arg| <= argCapacity`.
- OFP_TIMER_MAX_US, OFP_TIMER_ARG_LEN and ODP_TIMER_INVALID are defined in headers that are not part of this model. They are constructor parameters (`shortLimitUs`, `argCapacity`, `invalid`).
- The hardware timer pool: ticks, absolute deadlines, timeout events and `odp_timer_free` are abstracted to a list of armed timers.
  - Native short handles are assumed to have bit 31 clear, to differ from INVALID and to differ from every handle the pool still holds armed. `Start`, `ArmShort` and `OneSec` require this of `hw`.
  - The pool's own failure paths in cancel are not modelled. These are the lost timeout event and a failing `odp_timer_free`. Cancel of a short timer the pool no longer holds gives -1.
- The spinlock, concurrency between cores, and callbacks that re-enter the engine: each locked region is one atomic step. A callback is recorded as a `Firing` and has no effect on the context.
- Handle.EncodeLong: `id` is a signed `int`, so `id << 13` overflows once `id` reaches 2^18 and `id++` overflows after 2^31 arms. C leaves both undefined. The model takes the shift truncated to 32 bits and an unbounded counter, so only the counter modulo 2^18 reaches the handle, as the codec lemmas state.
- `ofp_timer()` (returns the pool handle) and the overwrite of `shm->socket_timer` by each short arm: neither affects the timer semantics modelled here.
- The argument the callback receives: the source passes `&bufdata->arg`, the whole OFP_TIMER_ARG_LEN buffer (`src/ofp_timer.c:68`, `:335`). Bytes past `arglen`, and the whole buffer when `arg` is NULL or `arglen` is 0, are whatever the pool block held before (`src/ofp_timer.c:214-215`). A `Firing` records only the copied prefix.
- Timer.Ticks: the C conversion of an out-of-range `uint64_t` to `int` is implementation-defined; the model takes the usual two's-complement wrap modulo 2^32.
- The timeout event and timer object freed by `ofp_timer_handle` and the short cancel: only the request's buffer is tracked.
- Timer.TimerContext.OneSec: requires the re-arm buffer not to be held by a timer other than those it expires, which the pool allocator guarantees in the source.
- Logging (`ofp_log.h`): it has no effect on the state.

## Findings

| source | as written | input that shows it | evidently intended | confidence | as-written member | corrected member |
|---|---|---|---|---|---|---|
| src/ofp_timer.c:276-279 | `ofp_timer_cancel` returns 0 for ODP_TIMER_INVALID before it tests bit 31, but `ofp_timer_start` can hand out a long handle equal to INVALID when INVALID has bit 31 set | INVALID = 0x80000001: the first one-second arm on a fresh context (counter 0, slot 1) gets handle 0x80000001. Cancelling it returns 0 and unlinks nothing, and the timer fires on the next tick. | every long timer still on the wheel is found and unlinked by a cancel of its handle | not executed; depends on the value of ODP_TIMER_INVALID, which is defined in a header that is not part of this model | Scenarios.CancelOfInvalidHandleStillFires | Timer.TimerContext.CancelChecked |

`Cancel` stays the model of the source and is what the other scenarios use. `CancelChecked` and `Scenarios.CheckedCancelOfInvalidHandle` show the corrected behaviour.

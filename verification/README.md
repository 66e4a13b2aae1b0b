# androit_shmem: seqlock and double-buffer protocol

This project models the shared-memory protocol of androit_shmem. Several processes share one region, `struct shared`. It holds two mutexes, a 32-bit `sequence` counter and two copies (slots) of a payload `struct data_struct`. Bit 0 of the counter picks the slot that readers use, called the active slot. Bit 1 is set while a real-time (RT) writer is writing.

The three roles:

- **RT writers** take `rt_wlock`, add 2 to the counter and update the active slot in place. They then add 2 again and release the lock.
- **Non-RT writers** take `nonrt_wlock`. They fill the inactive slot with the update and a copy of the active slot's array. They then try to swing the counter from a snapshot `s` to `(s + 4) ^ 1` with a compare-and-swap, and retry if it moved.
- **Readers** wait in `seq_begin` for bit 1 to clear and read the active slot. They retry if `seq_doretry` finds that the counter moved.

Module layout:

- `SeqCounter` (seq_counter.dfy): the 32-bit counter, its wrap-around and its two bits.
- `Protocol` (protocol.dfy): the region as a value, the indivisible steps other processes take on it, and the seqlock guarantee. The key result is this: if the counter reads the same before and after, with bit 1 clear at the snapshot, then nobody acted in between, unless the counter wrapped all the way round.
- `Shmem` (shmem.dfy): `struct shared` as a class whose fields the primitives of include/IAndroitShmem.h update in place.
  - Other processes act on the same object at the points where the source waits. These are the spin in `seq_begin` and the `sleep` calls.
  - A schedule `env` lists, chunk by chunk, the steps the others take at those points.
- `ShmemLib` (shmem_lib.dfy): the non-RT writer `updateByteBuffer`, proved to commit exactly the transaction over the region as the RT writers left it. It also holds `getActiveDataOffset`.
- `ShmemClient` (client.dfy): the RT writer `doWrite` and the reader `doRead` of the test client.
  - `doRead` is proved to return a value validated against a snapshot with bit 1 clear.
  - Unless the others took more than 2^32 / 5 steps, that value is exactly the active slot.
- `TimeMeasure` (timemeasure.dfy): `timediff` of the timing client.
- `Scenarios` (scenarios.dfy): concrete runs from a freshly initialised region.

Points of the code that the model makes explicit:

- The non-RT writer chooses the slot it fills once, under the lock, before its retry loop (shlib/shmem-lib.cc:112), not from each attempt's snapshot. With the lock held, only RT writers can act meanwhile, and they never change bit 0 (`Protocol.RtRunKeepsSlots`), so the chosen slot stays the inactive one.
- The comment at shlib/shmem-lib.cc:126-130 describes the commit as increasing the counter by 4 and inverting bit 0. `(start + 4) ^ 1` therefore advances the counter by 5 from an even value and by 3 from an odd one (`SeqCounter.CommitAdvances`).
- `doWrite` ignores the result of `begin_rt_write`, and `updateByteBuffer` ignores that of `begin_nonrt_write` (see Findings).

## Model

| member | source | states |
|---|---|---|
| SeqCounter.ActiveSlot | include/IAndroitShmem.h:62-63 | `sequence & 1` is a slot index, 0 or 1 |
| SeqCounter.FlipSlot | shlib/shmem-lib.cc:131 | `^ 1` switches the active slot and leaves every higher bit alone |
| SeqCounter.CommitValue | shlib/shmem-lib.cc:126-131 | the commit value `(start + 4) ^ 1` activates the other slot, keeps bit 1 and always differs from `start` |
| SeqCounter.AddTwo | include/IAndroitShmem.h:85-94 | adding 2 modulo 2^32 keeps the active slot and toggles bit 1 |
| SeqCounter.RtPairAddsFour | include/IAndroitShmem.h:85-94 | a begin/end pair adds 4 modulo 2^32 and leaves both bits as they were |
| SeqCounter.CommitAdvances | shlib/shmem-lib.cc:126-131 | the commit advances the counter by 5 from an even value and by 3 from an odd one |
| SeqCounter.MatchesBitTests | include/IAndroitShmem.h:129 | the arithmetic slot and bit-1 tests agree with `& 1` and `& 2` on a 32-bit unsigned |
| Protocol.WrapInt32 | AndroitShmemClient.cc:76 | conversion to `int` is congruent modulo 2^32 and the identity on values in range |
| Protocol.Transaction | shlib/shmem-lib.cc:112-131 | a committed non-RT update: the other slot becomes active, it holds the update and the previously active array, the old active slot is untouched, and the locks and bit 1 are kept |
| Protocol.ApplyConsistent | include/IAndroitShmem.h:62-67 | every enabled step keeps "bit 1 set iff `rt_wlock` held" |
| Protocol.RunConsistent | include/IAndroitShmem.h:62-67 | every feasible run of steps keeps that invariant |
| Protocol.WaitEnds | include/IAndroitShmem.h:128-132 | if a reader sees bit 1 set and the others quiesce, the schedule still has a chunk to run |
| Protocol.ApplyAdvancesCounter | include/IAndroitShmem.h:86 | one step moves the counter by its tick modulo 2^32 |
| Protocol.RunAdvancesCounter | include/IAndroitShmem.h:86 | a run moves the counter by the sum of its ticks modulo 2^32 |
| Protocol.TicksBound | shlib/shmem-lib.cc:131 | no step moves the counter by more than 5 |
| Protocol.QuietRunIsEmpty | include/IAndroitShmem.h:62-67 | from a snapshot with bit 1 clear, a run that does not advance the counter is empty |
| Protocol.UnchangedCounterMeansNoStep | include/IAndroitShmem.h:137-149 | seqlock guarantee: an unchanged counter over a snapshot with bit 1 clear means no step happened and the region is unchanged, unless the counter wrapped |
| Protocol.ShortRunUnchangedCounter | include/IAndroitShmem.h:137-149 | the same guarantee for any run of fewer than 2^32 / 5 steps |
| Protocol.RtRunKeepsSlots | AndroitShmemClient.cc:68-77 | RT writers keep the active slot choice, the inactive slot, both arrays and the non-RT lock |
| Protocol.RtRunFrame | AndroitShmemClient.cc:68-77 | RT writers do not read the inactive slot: a region differing only there runs to the same result in all other parts |
| Shmem.InitialRegion | include/IAndroitShmem.h:152-177 | the region after initialisation satisfies the protocol invariant |
| Shmem.SeedArray | include/IAndroitShmem.h:172-173 | element `j` of the sample array is `1024 - j` |
| Shmem.Shared.Map | include/IAndroitShmem.h:55-69 | a freshly mapped region is well-formed with both locks free; its contents are taken as zeros, a choice of the model that nothing depends on, since `InitShared` overwrites every field |
| Shmem.Shared.InitShared | include/IAndroitShmem.h:152-177 | counter 0, both locks free, both slots 42 and the sample float, arrays `1024 - j`, result is the sum of the two mutex-init results |
| Shmem.Shared.BeginRtWrite | include/IAndroitShmem.h:78-89 | a failed lock returns its error and changes nothing; a taken lock holds `rt_wlock` and adds 2 |
| Shmem.Shared.EndRtWrite | include/IAndroitShmem.h:91-96 | adds 2 and clears the `rt_wlock` flag, whoever set it; it returns EPERM only when the flag was not set. The flag has no owner, which is a choice of the model: the mutexes are of the default type, where an unlock by a non-owner is undefined |
| Shmem.Shared.BeginNonrtWrite | include/IAndroitShmem.h:100-102 | takes `nonrt_wlock` when the lock call succeeds; nothing else changes |
| Shmem.Shared.EndNonrtWrite | include/IAndroitShmem.h:104-106 | releases `nonrt_wlock`; nothing else changes; the flag has no owner and EPERM is returned only when it was not set, the same choice of the model as for `EndRtWrite` |
| Shmem.Shared.SeqDoretry | include/IAndroitShmem.h:138-149 | reports an inconsistent read exactly when the counter differs from `start` |
| Shmem.Shared.SeqBegin | include/IAndroitShmem.h:122-135 | returns the current counter with bit 1 clear; it waits only if bit 1 was set, and then exactly for the others' steps it let run |
| Shmem.Shared.CompareAndSwap | shlib/shmem-lib.cc:131 | swaps exactly when the counter equals `expected`; otherwise nothing changes |
| Shmem.Shared.Perform | include/IAndroitShmem.h:78-106 | another process's step, performed with the same primitives, has the effect of `Apply` |
| Shmem.Shared.Interleave | shlib/shmem-lib.cc:124 | the others' steps in order have the effect of `Run` |
| Shmem.Shared.OthersRun | AndroitShmemClient.cc:103 | at a wait the next chunk of the schedule happens, keeps the invariant and is accounted in the flattened schedule |
| ShmemLib.ShadowRun | shlib/shmem-lib.cc:111-112 | RT writers neither touch nor read the inactive slot, so a copy differing there stays so, with the same feasibility and quiescence |
| ShmemLib.PrepareShadow | shlib/shmem-lib.cc:117-122 | writing the update and the active array into the inactive slot prepares the commit and keeps the invariant |
| ShmemLib.PreparedRun | shlib/shmem-lib.cc:124 | RT writers running during the sleep keep the commit prepared |
| ShmemLib.ShadowCommit | shlib/shmem-lib.cc:126-131 | on a prepared region, setting the counter to `(start + 4) ^ 1` yields exactly `Transaction` |
| ShmemLib.LockedRunAgrees | shlib/shmem-lib.cc:109 | taking `nonrt_wlock` first changes neither what the RT writers do nor the transaction built on it |
| ShmemLib.WriteShadow | shlib/shmem-lib.cc:118-122 | the target slot gets the new float, the new integer and the other slot's array; nothing else changes |
| ShmemLib.TryCommit | shlib/shmem-lib.cc:114-131 | one attempt commits iff the counter still equals its snapshot, which has bit 1 clear; a commit leaves exactly `Transaction` of the region the others left; a failure consumes schedule and keeps the attempt retryable |
| ShmemLib.UpdateByteBuffer | shlib/shmem-lib.cc:101-139 | with the lock taken, the region ends as `Transaction` over the region the RT writers left, with bit 1 clear at commit, the other slot active and `nonrt_wlock` released; a NULL region changes nothing |
| ShmemLib.UpdateByteBufferChecked | shlib/shmem-lib.cc:101-139 | with the lock result checked, a failed lock changes nothing, and a taken lock gives that transaction |
| ShmemLib.ActiveDataOffset | shlib/shmem-lib.cc:143-152 | the offset is the data offset for slot 0 and one slot further for slot 1 |
| ShmemLib.ActiveDataOffsetSelectsActiveSlot | shlib/shmem-lib.cc:148-151 | the offset starts the active slot, fits in the region, does not overlap the other slot, and maps back to the slot index |
| ShmemClient.Bumped | AndroitShmemClient.cc:76-77 | the RT update changes only the integer and the float, never the array |
| ShmemClient.RtWriteEffect | AndroitShmemClient.cc:58-90 | the effect of one RT write keeps the region's shape |
| ShmemClient.RtWriteKeepsProtocol | AndroitShmemClient.cc:65-82 | a locked RT write keeps the invariant and the slot choice, adds 4, increments the active integer and leaves the inactive slot alone |
| ShmemClient.FailedLockInvertsRtBit | AndroitShmemClient.cc:65-82 | a failed lock leaves bit 1 set with nobody holding `rt_wlock`, and the next RT writer's begin clears it while it writes |
| ShmemClient.InvertedReadMissesStore | AndroitShmemClient.cc:65-82 | after a failed-lock write, the next writer's begin leaves bit 1 clear and its store changes the active slot without moving the counter, so a straddling read passes `seq_doretry` |
| ShmemClient.InvertedRtBitPersists | AndroitShmemClient.cc:65-82 | once bit 1 is set with `rt_wlock` free, a locked RT write clears it while writing and leaves it set again, adding 4 |
| ShmemClient.DoWrite | AndroitShmemClient.cc:58-90 | as written, on any region: the region becomes the RT-write effect, adding 4 if the lock was taken and 2 if not |
| ShmemClient.DoWriteChecked | AndroitShmemClient.cc:58-90 | with the lock result checked, a failed lock changes nothing and the invariant always holds |
| ShmemClient.Pause | AndroitShmemClient.cc:103 | the sleep lets the next chunk run and adds it to the steps since the snapshot |
| ShmemClient.ReadActive | AndroitShmemClient.cc:103-109 | the reads of one pass return the snapshot's active slot when nobody acted since the snapshot |
| ShmemClient.TryRead | AndroitShmemClient.cc:100-114 | one pass is inconsistent iff the counter moved since its bit-1-clear snapshot; a consistent pass of a short schedule read the current active slot |
| ShmemClient.DoRead | AndroitShmemClient.cc:92-122 | the result is validated against the counter at return, with bit 1 clear; for schedules under 2^32 / 5 steps it is the active slot's integer and float; NULL reads nothing |
| TimeMeasure.FromNanos | AndroitShmemClient_timemeasure.cc:60-72 | a nanosecond count has a normalized timespec form |
| TimeMeasure.TimeDiff | AndroitShmemClient_timemeasure.cc:60-72 | the difference spans exactly `end - start` nanoseconds and is normalized for normalized inputs |
| TimeMeasure.NormalizedUnique | AndroitShmemClient_timemeasure.cc:63-69 | a normalized timespec is determined by its nanosecond count |
| TimeMeasure.TimeDiffIsNormalizedDifference | AndroitShmemClient_timemeasure.cc:63-69 | on normalized inputs the borrow is taken exactly when needed: the result is the normalized difference |
| TimeMeasure.TimeDiffSelf | AndroitShmemClient_timemeasure.cc:60-72 | the difference of an instant with itself is zero |
| TimeMeasure.TimeDiffAdds | AndroitShmemClient_timemeasure.cc:60-72 | differences over consecutive intervals add up |
| Scenarios.NewRegion | include/IAndroitShmem.h:152-177 | a fresh region after initialisation is the initial region |
| Scenarios.InitThenRtWrite | AndroitShmemClient.cc:58-90 | after init, one RT write makes the active integer 43, leaves the inactive one at 42 and the counter at 4 |
| Scenarios.FailedLockWrite | AndroitShmemClient.cc:65-82 | as written a failed lock leaves counter 2 with bit 1 set and no holder; checked it leaves 0 |
| Scenarios.ReaderWaitsForRtWriter | include/IAndroitShmem.h:122-135 | a reader arriving during an RT write waits for its end and starts from 4 |
| Scenarios.UpdateThenRead | shlib/shmem-lib.cc:101-139 | an uncontended update commits at 5 with the array copied, and a reader then reads exactly the update |
| Scenarios.RtWriteDefeatsCommit | shlib/shmem-lib.cc:114-131 | an RT write during the sleep makes the first compare-and-swap fail; the retry commits at 9 |
| Scenarios.ReaderRetriesAfterRtWrite | AndroitShmemClient.cc:100-114 | a pass overlapped by an RT write is retried and returns what that write stored, validated against 4 |
| Scenarios.FailedLockThenWrite | AndroitShmemClient.cc:65-82 | a failed lock followed by a locked write leaves counter 6, bit 1 set and no holder |
| Scenarios.UnlockedWritersLoseUpdates | shlib/shmem-lib.cc:109-134 | writer A without the lock and writer B with the lock A failed to take: A's first swap fails, the retry stores into the active slot with bit 1 clear, and the commit at 8 shows the initial slot, losing both updates |

## Left out

- Binder IPC and `getSharedData` (how a client obtains the region) are not modelled. A region is a `Shared` object, or NULL.
- The server's memory setup, the file mapping of /mnt/shm/map with `ftruncate`, and `mlock` are not modelled.
- Memory ordering, `__sync` barriers and `cpu_relax` are not modelled. Every primitive is atomic, and other processes act only at the points where the source waits: the `sleep` calls, the spin of `seq_begin`, and between the reader's loads.
- A blocking `pthread_mutex_lock` is modelled by its result parameter. A lock that succeeds was free. The wait for a held mutex is not modelled.
- ShmemClient.DoWrite: no other process runs during its `sleep(3)`. With `rt_wlock` held, other RT writers wait for the lock and a non-RT commit needs bit 1 clear, but a non-RT writer already past its `seq_begin` may still store into the inactive slot, which `doWrite` neither reads nor writes. On the failed-lock path nothing keeps the others out; that interleaving is not modelled.
- Another process's non-RT transaction is one indivisible `NonRtCommit` step. Its separate stores into the inactive slot, and those of its failed attempts, are not steps of their own.
- Another process's RT write stores only `integer` and `fp`, both in one step, into the active slot, as `doWrite` does. It never writes the array, which is what `Protocol.RtRunKeepsSlots` relies on for "both arrays".
- Other processes' writes in a schedule are those whose lock call succeeded: `RtStore` needs `rt_wlock` held, and `NonRtCommit` is a whole locked transaction. A failed-lock `doWrite` or `updateByteBuffer` of another process is not a step, so the guarantees of `ShmemClient.TryRead`, `ShmemClient.DoRead` and `ShmemLib.UpdateByteBuffer` hold only when the others take their locks.
- Endless waiting is not modelled. The schedule of the others is finite and ends with no RT write in flight (`Protocol.Quiesces`). The spin of `seq_begin` and the retry loops of `updateByteBuffer` and `doRead` can run forever under sustained RT writes, and this is excluded.
- Floating point is not modelled. A `float` is kept as its bit pattern. `fp * 1.234` is the function parameter `scale`, and the sample value 23.42 is the parameter `seedFp`.
- Logging (`LOGD`/`LOGE`) and the timing of `sleep` are not modelled.
- ShmemClient.DoRead: returns the `integer` and `fp` that the source only passes to `LOGD` (AndroitShmemClient.cc:108-109); the source's `doRead` returns nothing.
- Shmem.Shared.SeqBegin: modelled only on regions where bit 1 agrees with `rt_wlock` (`Protocol.Consistent`). After a failed-lock `doWrite` they disagree, and the spin is then not modelled; what readers see there is `ShmemClient.InvertedReadMissesStore`.
- ShmemClient.TryRead: modelled only on regions where bit 1 agrees with `rt_wlock`, as for `SeqBegin`.
- ShmemClient.DoRead: modelled only on regions where bit 1 agrees with `rt_wlock`, as for `SeqBegin`. The test client's `main` calls it right after `doWrite` (AndroitShmemClient.cc:138-139), which is covered only when that write took its lock.
- ShmemLib.UpdateByteBuffer: modelled only on regions where bit 1 agrees with `rt_wlock`, as for `SeqBegin`.
- The JNI entry points `getByteBuffer` and `getSeqCount` and the Java side (`SharedMem.java`) are not part of this model.
- The `main` of AndroitShmemClient_timemeasure.cc (`clock_gettime` and its own read loop) is not part of this model. Only `timediff` is.
- TimeMeasure.TimeDiff: uses unbounded integers. The overflow of `time_t`/`long` is not modelled.
- The `int` overflow of `integer + 1` in `doWrite` is modelled as a two's-complement wrap (`WrapInt32`). Signed overflow is undefined in C++, so the wrap is a choice of the model.
- ShmemLib.ActiveDataOffset: `offsetof` and `sizeof` are the parameters of a `Layout`. The `size_t` to `jint` conversion is a two's-complement wrap. The function takes the counter rather than the region, so the unchecked NULL from `getSharedData` is not modelled.
- ShmemLib.UpdateByteBuffer: models the path where `begin_nonrt_write` takes the lock. The schedule of the others then contains only RT-writer steps, assuming the other non-RT writers' lock calls succeed, so that the lock excludes them. The failed-lock path, where the source goes on regardless, is modelled only by the replay `Scenarios.UnlockedWritersLoseUpdates` (see Findings).
- ShmemLib.UpdateByteBuffer: does not state how many chunks of the schedule it consumed, only that the count is positive when the schedule is.
- ShmemClient.DoRead: the claim that it returns the active slot assumes the others took fewer than 2^32 / 5 steps. More steps could bring the counter back to the snapshot value (the ABA case of a 32-bit seqlock).
- SeqCounter.MatchesBitTests: relates only the `& 1` and `& 2` tests to bit-vector arithmetic. The rest of the counter arithmetic is on integers modulo 2^32.

## Findings

| source | as written | input that shows it | evidently intended | confidence | as-written member | corrected member |
|---|---|---|---|---|---|---|
| AndroitShmemClient.cc:65 | `doWrite` ignores the result of `begin_rt_write`. On a failed lock it still writes the active slot and calls `end_rt_write`, which adds 2 and unlocks a mutex it does not hold | a region right after `init_shared` (counter 0) and a `pthread_mutex_lock` that fails: the counter ends at 2, bit 1 is set and nobody holds `rt_wlock`. The inversion persists: every later RT write that gets the lock clears bit 1 while it writes and sets it again at its end (counter 6 after the next one, `Scenarios.FailedLockThenWrite`), so readers spin between writes and read during them: a snapshot taken right after the next `begin_rt_write` has bit 1 clear and survives that writer's store into the active slot (`ShmemClient.InvertedReadMissesStore`). Even the failed-lock write itself stores `integer` and `fp` (lines 76-77) while the counter still has the value a reader took as its snapshot; the +2 comes only at line 82, so a reader that loads `integer` before the stores and `fp` after them, and calls `seq_doretry` before line 82, accepts a torn pair | give up the write when the lock was not taken, as `begin_rt_write`'s return value allows | not executed | ShmemClient.FailedLockInvertsRtBit | ShmemClient.DoWriteChecked |
| shlib/shmem-lib.cc:109 | `updateByteBuffer` ignores the result of `begin_nonrt_write` and runs the transaction without the lock, with the target slot fixed before the retry loop (line 112) | a region right after `init_shared`, a lock call that fails, and a second non-RT writer that takes the lock the first failed to take and commits through slot 1 during the first writer's `sleep(3)`: the first writer's swap fails, its retry stores into slot 1, now active, with bit 1 clear, and its commit makes slot 0 with the initial values active again at counter 8, so both updates are lost | give up when the lock was not taken | not executed | Scenarios.UnlockedWritersLoseUpdates | ShmemLib.UpdateByteBufferChecked |

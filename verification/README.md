# The AFS cache manager, modelled in Dafny

The AFS client keeps remote files in a local cache under one global lock. This project models the
parts of it that are hard to get right and proves what they are relied on for. Code that changes
tables in place is a class with those tables as arrays and sequences; the value a table stands for,
and the spec of every change to it, are functions and predicates beside it. Since every thread runs
under the global lock, a stretch of code between two places where it may sleep is one atomic step.

| file | what it models |
|---|---|
| `Common.dfy` | what several parts share: powers of two, division, the hash of a name |
| `LockProtocol.dfy` | read, shared, write and boosted locks with wait bits, as a class and as a transition system over any number of threads |
| `CallbackWheel.dfy` | the 128-slot wheel of callback expirations and the check of its base slot |
| `CallbackRuns.dfy` | runs of promises, breaks, bumps and checks, and what a sweep leaves trusted |
| `CallbackDaemon.dfy` | the daemon's schedule of looks and bumps |
| `SlotChains.dfy` | index-linked lists that share one array of links |
| `CacheState.dfy`, `DiskCache.dfy` | the disk cache's slot table: two families of hash chains, free and discard list, block accounting, lookup, smushing, rekeying, start-up |
| `Victims.dfy` | choosing the sixteen oldest slots to reclaim |
| `RetryLoop.dfy` | host and address selection, the verdict on an outcome, and the loop of both |
| `BufferPool.dfy`, `PageBuffers.dfy` | the write-back pool of directory pages |
| `TraceLog.dfy` | the ring of variable-length trace records |
| `NameRings.dfy`, `NameCache.dfy` | the directory name cache in circular buckets |
| `Resync.dfy` | replaying disconnected changes |
| `Dynroot.dfy` | the two-pass builder of the dynamic root directory |
| `BackgroundQueue.dfy` | the table of background requests |
| `CellNames.dfy` | the list of cell names and its file |
| `MemCache.dfy` | chunks kept in memory |
| `Codecs.dfy` | chunk arithmetic and the group encoding of an authentication group |

Some properties the source suggests do not hold of the code. They are stated with their exact
condition or with a concrete case:

- A vcache invalidated by the callback check can be put back into the wheel
  (`RuleHoldsExactlyWithinFirstSlot`, `OverdueIsReached`).
- The base time can be 19 seconds ahead of the clock, a promise counts from when its call was sent but
  is filed from the base when the answer comes, and a created file is filed by the absolute time its
  promise ends. So a vcache can be filed too late (`FreshGrantFitsExactly`, `LateGrant`,
  `SlowFetchExpires`, `CreatedFileExpires`), and what a sweep is good for depends on the slack its
  promises need (`TrustedAfterSweep`).
- Between two moves of the base a vcache in a later slot is trusted up to 128 seconds past its promise
  (`NothingTrustedIsStale`, `AlmostAsStaleAsCanBe`).
- The comment at the block computation says it rounds up to 1K; it does so for fragments of exactly
  1K (`BlocksRoundUpOnlyFor1K`, `FragmentsRoundExactlyUpTo1K`).
- Reusing a discarded slot with its data leaves its blocks in the counter of the wrong split-cache
  bucket (`ReuseMisfilesBlocks`, `AllocDCache`, `OneBlockMisfiled`).
- A request whose first search meets only busy hosts does not wait but fails
  (`RoundOnBusyVolume`, `FirstRoundOnBusyVolume`). A server that keeps restarting, or a list of hosts
  that keeps changing, keeps a request going for good (`RestartingNeverEnds`, `ChangingHostsCycle`).
- A new directory page for which another buffer exists already leaves two buffers for it (`DNew`,
  `PageTwice`).
- A rename into a directory that is itself still to be made is not put off (`ResyncDisconFiles`,
  `RenameTooEarly`).
- The root directory builder does not check the size of its allocation table
  (`AllocationMapHolds`, `AllocationMapOverflows`).
- The cell-name file is not cut off where writing ends (`RewrittenRoundTrip`,
  `ForgottenNameComesBack`).
- Cell numbers have 32 bits, and after the last one come negative ones (`DecodeOk`,
  `LastNumberOverflows`).

## Model

| member | source | states |
|---|---|---|
| LockProtocol.AfsLock.Obtain | src/afs/lock.h:308-347 | A request takes the lock at once exactly when it is not blocked, which by `GrantedUnlessConflict` is when no other thread conflicts; a blocked one sets its wait bit and counts as waiting; the boosted request is the upgrade of a shared holder |
| LockProtocol.AfsLock.SetWaitBit | src/afs/afs_lock.c:137-172 | Going to sleep leaves the mode's bit in the wait states and nothing else changed |
| LockProtocol.AfsLock.Retest | src/afs/afs_lock.c:137-175 | A woken thread goes back to sleep exactly when its mode is blocked again, that is when some other thread conflicts, and otherwise takes the lock and stops waiting |
| LockProtocol.AfsLock.ReleaseR | src/afs/afs_lock.c:194-205 | Wakes the readers if any wait, otherwise all exclusive waiters, and clears just their bits |
| LockProtocol.AfsLock.ReleaseW | src/afs/afs_lock.c:209-220 | Wakes all exclusive waiters if any wait, otherwise the readers, and clears just their bits |
| LockProtocol.AfsLock.Release | src/afs/afs_lock.c:97-122 | The last reader prefers writers, an exclusive holder prefers readers, and nobody is woken when no bit is set |
| LockProtocol.AfsLock.ConvertWToS | src/afs/lock.h:349-355 | A write holder becomes a shared one and wakes waiting readers |
| LockProtocol.AfsLock.ConvertToR | src/afs/lock.h:357-371 | An exclusive holder becomes a reader and lets waiters retest |
| LockProtocol.EffectIsLawful | src/afs/afs_lock.c:59-220 | Every enabled operation changes the lock word and its thread in one of the few ways the invariant argument allows |
| LockProtocol.StepInv | src/afs/afs_lock.c:59-220 | One step of any thread keeps the whole invariant: reader and waiter counts are right, one owner at most, every sleeper's bit is set, and somebody not asleep answers for every sleeper |
| LockProtocol.GrantedUnlessConflict | src/afs/lock.h:308-347 | For every state that meets the invariant: a request, an upgrade or a woken thread that runs gets the lock if and only if no other thread holds it in a conflicting way, and otherwise sleeps; a read request conflicts with a writer, a shared one with any owner, a write request with anyone, an upgrade with readers |
| LockProtocol.WokenExactly | src/afs/afs_lock.c:97-220 | Exactly which sleepers each release and conversion wakes: the last reader the exclusive ones, an exclusive holder the readers or else the exclusive ones; nothing else wakes anybody |
| LockProtocol.MutualExclusion | src/afs/afs_lock.c:59-220 | In every reachable state, over all interleavings and spurious wakeups, beside a writer nobody has the lock, and beside a shared holder, also one asleep or just woken on its way to a write lock, only readers have it |
| LockProtocol.NoLostWakeup | src/afs/afs_lock.c:124-220 | While a thread sleeps its wait bit is set, and another thread that is not asleep holds the lock or has been woken and has not run |
| LockProtocol.BoosterWaitsForReader | src/afs/afs_lock.c:167-175 | A thread asleep while boosting always waits for a reader that is really there |
| LockProtocol.DrainStep | src/afs/afs_lock.c:96-220 | Every release and every resumption of a woken thread lowers a rank, so sleeping again is paid for by the wakeup that was used up |
| LockProtocol.DrainIsBounded | src/afs/afs_lock.c:96-220 | Without new requests only so many releases and resumptions can happen, in whatever order |
| LockProtocol.SomeoneCanMove | src/afs/afs_lock.c:96-220 | As long as any thread holds or waits some thread can release or resume |
| LockProtocol.EverySleeperIsServed | src/afs/afs_lock.c:96-220 | Without new requests, releasing and resuming in any order comes to an end, and where it ends every thread is idle: nobody is left asleep |
| LockProtocol.FreeLockIsGranted | src/afs/afs_lock.c:137-175 | When nobody holds the lock and somebody waits, some waiter is awake, and it gets the lock when it runs |
| CallbackWheel.CallbackTable.QueueCallback | src/afs/afs_cbqueue.c:112-123 | A vcache is put in its hashed slot counted from the base, unless it is queued already: then it stays where it is |
| CallbackWheel.CallbackTable.DequeueCallback | src/afs/afs_cbqueue.c:137-147 | The vcache is in no slot, and no other has moved |
| CallbackWheel.CallbackTable.BumpBase | src/afs/afs_cbqueue.c:396-418 | The base moves one slot at a time while it is due, merging each slot passed into the next; reports how often |
| CallbackWheel.CallbackTable.Examine | src/afs/afs_cbqueue.c:199-260 | One entry: kept, renewed by its volume's promise, dropped or put where it belongs, as `ExamineSifts` says, and the queue in front of it unchanged |
| CallbackWheel.CallbackTable.Walk | src/afs/afs_cbqueue.c:199-290 | The walk over the base slot from its old end, with the safety counter that stops a runaway walk |
| CallbackWheel.CallbackTable.CheckCallbacks | src/afs/afs_cbqueue.c:189-291 | The check as a whole: what `CheckSifts` says of every vcache, or, when the safety counter runs over, the flush of `CheckGivesUp` |
| CallbackWheel.CallbackTable.FlushCBs | src/afs/afs_cbqueue.c:298-321 | Every slot empty, every status bit off, base time now |
| CallbackWheel.EnqueueKeepsGood | src/afs/afs_cbqueue.c:112-123 | Queueing keeps every vcache in a slot no later than it expires, up to a slack, if the new one outlives the slot its hashed time leads to |
| CallbackWheel.EnqueueEffect | src/afs/afs_cbqueue.c:112-123 | A vcache not queued is in exactly the slot that many places past the base and one that is queued stays; its volume is good for at least as long as it, never for less than before, and other volumes are untouched |
| CallbackWheel.BumpKeepsGood | src/afs/afs_cbqueue.c:396-418 | Moving the base keeps the same bound through the merges, ends less than 108 seconds behind the clock and at most 19 ahead, and loses or adds no vcache |
| CallbackWheel.WalkKeepsGood | src/afs/afs_cbqueue.c:199-260 | The check keeps the bound for everything it puts back |
| CallbackWheel.ExamineSifts | src/afs/afs_cbqueue.c:199-260 | A vcache of the base slot whose promise reaches the limit, or whose read-only volume is good past it, or which is read-only with no server up, keeps its status and lies exactly in the slot its expiry asks for, with the expiry of the volume if renewed; any other loses its status and its place in the base slot |
| CallbackWheel.CheckSifts | src/afs/afs_cbqueue.c:189-291 | The check does this to every vcache of the base slot and touches no other one, as long as the slot is no longer than the safety limit |
| CallbackWheel.CheckGivesUp | src/afs/afs_cbqueue.c:262-321 | Past that limit nothing is queued or trusted afterwards |
| CallbackWheel.CheckMargin | src/afs/afs_cbqueue.c:189-291 | After a check whatever is still queued is good past the limit, is a read-only one kept while its servers are down, or lies a slot or more ahead of the base |
| CallbackWheel.DroppedButRequeued | src/afs/afs_cbqueue.c:243-260 | Exactly when the check breaks the rule that an invalidated vcache leaves the queue: it is dropped and at the same time misplaced |
| CallbackWheel.RuleHoldsExactlyWithinFirstSlot | src/afs/afs_cbqueue.c:243-260 | For every table in order and every vcache of its base slot the rule holds if and only if the check looks no further ahead than the first slot of 128 seconds |
| CallbackWheel.UnsafeBeyondFirstSlot | src/afs/afs_cbqueue.c:243-260 | The failing table: one trusted vcache in the base slot with 128 seconds to go, dropped and put back by any check that looks further |
| CallbackRuns.OverdueIsReached | src/afs/afs_cbqueue.c:112-123 | That table is reached from the start by learning of a vcache and a 21-second promise when the base is 107 seconds behind |
| CallbackRuns.FreshGrantFitsExactly | src/afs/afs_cbqueue.c:112-123 | For every promise, slot and slack: the table keeps its bound through queueing if and only if the vcache outlives its slot up to that slack |
| CallbackRuns.NextOrdered | src/afs/afs_cbqueue.c:112-418 | Whatever promises come, every event leaves each queued vcache known and in one slot |
| CallbackRuns.NextSound | src/afs/afs_daemons.c:174-190 | Every event - grant, local creation, break, bump, check, flush, servers and volumes changing - keeps the bound with any slack the fresh promises fit, and the base time at most 19 seconds ahead; a promise for a queued vcache is taken not to shrink |
| CallbackRuns.RunSound | src/afs/afs_cbqueue.c:112-418 | Over every run whose promises fit with a slack the bound holds with that slack |
| CallbackRuns.FetchedFits | src/afs/afs_vcache.c:2595-2629 | A promise counted from when the call was sent and filed when the answer comes fits with 19 seconds of slack and the length of the call |
| CallbackRuns.FetchedRunFits | src/afs/afs_vcache.c:2595-2629 | So do all promises of a run whose calls take no longer than that |
| CallbackRuns.UsualIsAllowed | src/afs/afs_cbqueue.c:199-260 | If status is fetched for untrusted vcaches only and new promises last at least as long as checks look ahead, a promise for a queued vcache that is not read-only does not shrink |
| CallbackRuns.UsualRunsCanRun | src/afs/afs_cbqueue.c:199-260 | Over every run from the start with events like that promises do not shrink |
| CallbackRuns.TrustedAfterSweep | src/afs/afs_cbqueue.c:149-290 | Over every run whose promises fit with a slack, right after bump and check a trusted vcache is queued and good for 20 seconds up to that slack, or it is a read-only one kept while its servers are down, or was made locally |
| CallbackRuns.NothingTrustedIsExpired | src/afs/afs_cbqueue.c:149-290 | When promises are fetched by calls of up to d seconds, right after bump and check nothing trusted is d seconds past its promise, with the same exceptions |
| CallbackRuns.NothingTrustedExpiresSoon | src/afs/afs_cbqueue.c:149-290 | When promises fit exactly, nothing trusted expires within the next 20 seconds |
| CallbackRuns.LateGrant | src/afs/afs_cbqueue.c:403-414 | A case: just after the base time has been moved 19 seconds ahead a promise of 128 seconds does not fit exactly, though its call took no time |
| CallbackRuns.SlowFetchExpires | src/afs/afs_vcache.c:2595-2629 | A case: the same promise by a call of ten seconds is trusted two seconds past its end after bump and check |
| CallbackRuns.CreatedFileExpires | src/afs/VNOPS/afs_vnop_create.c:305-450 | A case: a created file is filed by the absolute time its promise ends, in the last slot, and is trusted past its end after bump and check |
| CallbackDaemon.OneInStep | src/afs/afs_daemons.c:174-190 | Every event and every look of the schedule keep the daemon in step: looks at most 128 seconds after the last bump, the base less than 108 seconds behind then, and nothing in the base slot over at the last look |
| CallbackDaemon.StartInStep | src/afs/afs_daemons.c:161-162 | A daemon that starts with the table is in step |
| CallbackDaemon.NothingTrustedIsStale | src/afs/afs_daemons.c:174-190 | Over every run of the daemon's schedule, with looks at most 20 + d seconds apart and promises that fit with a slack and are not over when filed, at any time nothing trusted is more than 128 + d seconds and the slack past its promise, but for what was spared at the last look or made locally |
| CallbackDaemon.AlmostAsStaleAsCanBe | src/afs/afs_daemons.c:174-190 | A run with looks every 20 seconds and exact promises that ends with a vcache trusted 127 seconds past its promise |
| CallbackDaemon.BegunIsReached | src/afs/afs_daemons.c:161-162 | The table that run begins with comes of one exact promise |
| SlotChains.Chain | src/afs/afs_dcache.c:2084-2096 | A slot goes to the front of one chain and no other link changes |
| SlotChains.Predecessor | src/afs/afs_dcache.c:898-912 | The walk for the slot before one on a chain always finds it, so the panic at the end of the walk is never reached |
| SlotChains.Unchain | src/afs/afs_dcache.c:890-935 | A slot is unlinked from its chain by changing the head or just the one link that led to it |
| SlotChains.PushFamily | src/afs/afs_dcache.c:2084-2096 | Putting a slot that is on no list onto one keeps all lists over the shared links well formed and each slot on at most one |
| SlotChains.RemoveFamily | src/afs/afs_dcache.c:890-935 | Unlinking a slot keeps all other lists over the shared links as they were |
| SlotChains.FrontFamily | src/afs/afs_dcache.c:2023-2027 | Moving a found slot to the front of its chain keeps every list well formed with the same slots |
| SlotChains.StillAhead | src/afs/afs_dcache.c:1324-1347 | Relinking the slot a walker stands on leaves the links ahead of the walker alone |
| CacheState.FragmentsRoundExactlyUpTo1K | src/afs/afs_dcache.c:505-526 | The exclusive-or rounding is the length in whole fragments, in 1K units, for every length if and only if a fragment is at most 1K |
| CacheState.BlocksRoundUpOnlyFor1K | src/afs/afs_dcache.c:505-526 | The charge is the number of 1K blocks rounded up, for every length, if and only if a fragment is exactly 1K |
| CacheState.DiscardedSomewhere | src/afs/afs_dcache.c:1074-1090 | While discarded blocks are counted there is a discarded slot: popping the list never finds it empty |
| CacheState.DcChain | src/afs/afs_dcache.c:1446-1481 | A chunk-hash chain holds exactly the hashed slots of its bucket, each once |
| CacheState.DvChain | src/afs/afs_dcache.c:1293-1347 | A file-hash chain holds exactly the hashed slots of its bucket, each once |
| CacheState.UnhashInv | src/afs/afs_dcache.c:884-948 | Taking a slot off both chains keeps the invariant of the whole table |
| CacheState.RehashInv | src/afs/afs_dcache.c:2084-2097 | Entering a slot on both chains keeps the invariant, and keeps one slot per chunk if nobody had the chunk |
| CacheState.PutDiscardedInv | src/afs/afs_dcache.c:1040-1069 | Discarding keeps the invariant, with the slot's blocks counted as discarded |
| CacheState.TakeDiscardedInv | src/afs/afs_dcache.c:1729-1741 | Taking the first discarded slot keeps the invariant and takes its blocks out of the discarded count |
| CacheState.TakeFreeInv | src/afs/afs_dcache.c:1720-1728 | Taking the first free slot keeps the invariant |
| CacheState.ResizedInv | src/afs/afs_dcache.c:505-526 | A change of length keeps the counters equal to the sums over all slots |
| CacheState.ReuseMisfilesBlocks | src/afs/afs_dcache.c:1736-1782 | When one slot has been taken into use again and its blocks moved to bucket 0, the per-bucket counters are exact if and only if it was emptied, or is labelled 0, or has no blocks; their sum is right either way |
| CacheState.SplitExactAfter | src/afs/afs_dcache.c:190-261 | A change of one slot keeps every split-cache counter exact if and only if each counter moves by what the slot takes up in that bucket |
| CacheState.OneBlockMisfiled | src/afs/afs_dcache.c:1736-1782 | A case: a table of one discarded slot with one block, taken into use again for bucket 1 |
| CacheState.RebucketedKeepsSplitExact | src/afs/afs_dcache.c:224-261 | Moving a slot between split-cache buckets keeps each counter exact if and only if all its blocks are moved, or none need be |
| CacheState.RekeyMovesExactly | src/afs/afs_disconnected.c:853-881 | After rekeying a lookup under the new fid finds exactly the chunks of both, under the old fid none, and under any other fid what it found before |
| CacheState.RekeyKeepsOnePerChunk | src/afs/afs_disconnected.c:853-881 | If the new fid had nothing cached, rekeying leaves one slot per chunk |
| DiskCache.SlotTable.constructor | src/afs/afs_dcache.c:3477-3560 | The table starts with empty chains and lists, every slot uninitialised and no block in use |
| DiskCache.SlotTable.Unhash | src/afs/afs_dcache.c:884-935 | Off both hash chains, and no other slot moved |
| DiskCache.SlotTable.HashOutDCache | src/afs/afs_dcache.c:884-948 | Afterwards the slot is on no list; the two panics are never reached; zapping clears the volume |
| DiskCache.SlotTable.FlushDCache | src/afs/afs_dcache.c:960-991 | The slot goes to the discard list if it has bytes and to the free list if not; blocks in use do not change |
| DiskCache.SlotTable.FreeDCache | src/afs/afs_dcache.c:1001-1022 | An empty slot goes to the front of the free list |
| DiskCache.SlotTable.DiscardDCache | src/afs/afs_dcache.c:1040-1069 | The slot goes to the front of the discard list and its blocks count as discarded |
| DiskCache.SlotTable.FreeDiscardedDCache | src/afs/afs_dcache.c:1074-1129 | Frees the first discarded slot if blocks are discarded; blocks in use that are not discarded do not change |
| DiskCache.SlotTable.MaybeFreeDiscardedDCache | src/afs/afs_dcache.c:1137-1149 | The drain loop ends, with nothing discarded or the limit met, having only moved discarded slots to the free list |
| DiskCache.SlotTable.AdjustSize | src/afs/afs_dcache.c:505-526 | The slot's length, the total and the counter of its bucket change together; exact split-cache counters stay exact |
| DiskCache.SlotTable.DCMoveBucket | src/afs/afs_dcache.c:224-261 | The label and the given number of blocks move; the total stays; exact counters stay exact if and only if the label stays or all blocks of the slot move |
| DiskCache.SlotTable.AllocDCache | src/afs/afs_dcache.c:1711-1793 | Hands out a free or a discarded slot, whichever the source prefers, retagged and labelled, in no list, empty if an empty one was asked for; the undiscarded total grows by what the slot still holds; exact split-cache counters stay exact if and only if the slot comes empty or is wanted in bucket 0 |
| DiskCache.SlotTable.FindDCache | src/afs/afs_dcache.c:1446-1481 | Finds a slot with this fid and chunk if and only if one is hashed |
| DiskCache.SlotTable.GetDCache | src/afs/afs_dcache.c:2004-2097 | Returns the slot that has the chunk, moved to the front of its chain with all else unchanged, or enters a fresh one, chosen, emptied, labelled and counted as `AllocDCache` does; one slot per chunk is kept |
| DiskCache.SlotTable.TryToSmush | src/afs/afs_dcache.c:1293-1347 | Exactly the file's slots that are neither dirty nor in use are dropped, and every other slot is left as it was |
| DiskCache.SlotTable.Rekey | src/afs/afs_disconnected.c:853-881 | Exactly the old fid's slots are renamed and rechained, also when old and new fid share a bucket |
| DiskCache.SlotTable.Zap | src/afs/afs.h:1137-1142 | The slot stays hashed with unique number 0, and one slot per chunk is kept |
| DiskCache.SlotTable.InitCacheFile | src/afs/afs_dcache.c:3318-3457 | The next slot of the cache-info file is hashed with its blocks charged if its data can be used, and goes to the free list if not |
| Victims.SelectVictims | src/afs/afs_dcache.c:615-670 | At most 16 eligible slots are chosen, all of them if there are no more, and nobody passed over is older than anybody chosen; the youngest is always one of them, so the panic is never reached |
| Victims.Recompute | src/afs/afs_dcache.c:660-668 | After a replacement the pointer and the time are those of the youngest victim again |
| Victims.ReplaceVictim | src/afs/afs_dcache.c:644-668 | Replacing the youngest by an older one keeps the choice the oldest |
| Victims.OldestIsDetermined | src/afs/afs_dcache.c:615-670 | Two choices that meet this differ only in slots of one and the same age |
| RetryLoop.Nearest | src/afs/afs_conn.c:125-130 | The best-ranked address of a host that is up, if better than what was found before |
| RetryLoop.Client.Pass | src/afs/afs_conn.c:112-131 | One pass finds an address exactly when some listed row at this level can serve, then the nearest of all such rows, and starts the busy count exactly when it meets a busy row |
| RetryLoop.Client.Passes | src/afs/afs_conn.c:112-132 | The passes from the best level on find an address exactly when some row can serve: the nearest of all addresses that are up on rows of the least level in use |
| RetryLoop.Client.Conn | src/afs/afs_conn.c:67-143 | An address is found if and only if some row can serve the call, on a row of the least level in use, and unless row 0 is taken at once it is the nearest of all on rows of that level; the marks the search may leave are stated |
| RetryLoop.Client.FinalizeReq | src/afs/afs_error.c:236-256 | Clears what was noted before the first verdict, and nothing after it |
| RetryLoop.Client.BlackListOnce | src/afs/afs_analyze.c:242-274 | Skips the rows of this server and those whose first address is down; tells whether any host is left |
| RetryLoop.Client.MarkDown | src/afs/afs_server.c:132-178 | The address is down, and the server just when all its addresses are |
| RetryLoop.Client.ServerDown | src/afs/afs_server.c:242-258 | The address is down afterwards, because a server with an address up is not marked down itself |
| RetryLoop.Client.WaitForBusy | src/afs/afs_analyze.c:349-390 | Every row that is not offline starts over; retried at most a hundred times, and then the volume is reported busy |
| RetryLoop.Client.MissedRows | src/afs/afs_analyze.c:603-616 | The server's listed rows go up a level or offline; others start over only if the hosts changed; nothing behind the last listed row changes |
| RetryLoop.OfflineAfterAllLevels | src/afs/afs_analyze.c:603-616 | By induction over missing-volume answers: a row is usable, one level further each time, until its server has missed the volume once for each level left, and then it is offline; it never looks busy from that |
| RetryLoop.Client.Idle | src/afs/afs_analyze.c:460-475 | An idle timeout skips the row that was used: there is one host less to try |
| RetryLoop.Client.Lost | src/afs/afs_analyze.c:476-487 | A network failure takes an address that was up down |
| RetryLoop.Client.BusyAnswer | src/afs/afs_analyze.c:490-512 | The server's rows are busy; VBUSY counts, VRESTARTING starts the count over |
| RetryLoop.Client.Missed | src/afs/afs_analyze.c:593-618 | The list of hosts is what the location server says, if anything; a missing volume uses up a level of the row that was used unless that list has changed |
| RetryLoop.Client.CheckVldb | src/afs/afs_analyze.c:157-199 | The list is taken over, and reported changed exactly when it is another one |
| RetryLoop.Client.Verdict | src/afs/afs_analyze.c:395-651 | What each outcome of a call that was made does to request, volume, addresses and list of hosts, and that it does nothing else |
| RetryLoop.NoCallDecides | src/afs/afs_analyze.c:345-440 | When no row could serve, the round goes on exactly for a known request that has met busy hosts, has patience left and has a row that is not offline; if it does not, no row can serve it now, or the volume is reported busy |
| RetryLoop.CallDecides | src/afs/afs_analyze.c:460-651 | When a call was made, the round goes on exactly after a retryable outcome, or an idle timeout with a host left that is not skipped; after an idle timeout without one no row can serve the request |
| RetryLoop.Client.Analyze | src/afs/afs_analyze.c:310-651 | Which outcomes are retried; every retry after the first round uses up patience or potential, but for a restart or changed hosts |
| RetryLoop.Client.Round | src/afs/afs_analyze.c:310-651 | Connecting and judging together decide exactly as `GoesOn` says, and lower the rank on every retried round after the first |
| RetryLoop.Client.Call | src/afs/afs_analyze.c:310-651 | The loop goes on as long as there is a reason and no longer: every round but the last decided to go on and the last not to, and if its outcome was one to retry no row is left that could serve the request, or the volume stayed busy past a hundred waits. It ends for every sequence of outcomes that from some round on has no restarts and answers about the hosts that agree: within 102 times (levels, addresses and hosts) rounds if the hosts never change, and twice that after the round if they do |
| RetryLoop.Client.RoundOnBusyVolume | src/afs/afs_analyze.c:310-390 | A round that finds no usable host but a busy one is retried if and only if it is not the first of the request, whose verdict clears the busy count, and a hundred waits are not over |
| RetryLoop.Client.FirstRoundOnBusyVolume | src/afs/afs_error.c:236-256 | A fresh request whose first search meets only busy hosts fails at once with a network error |
| RetryLoop.Client.RestartCycle | src/afs/afs_analyze.c:490-512 | With one host the request and the volume are back in the same state after two retried rounds |
| RetryLoop.Client.RestartingRound | src/afs/afs_analyze.c:490-512 | For any volume with a row that could serve the request, a round in which the server called is restarting, or all are busy from that, asks for another and leaves such a row |
| RetryLoop.Client.RestartingNeverEnds | src/afs/afs_analyze.c:490-512 | So no number of rounds ends the request when every server called is restarting |
| RetryLoop.Client.ChangingHostsCycle | src/afs/afs_analyze.c:593-618 | Two hosts that each miss the volume, while a third comes and goes in the location server's answers, bring request, volume and list back to the same state after two retried rounds: such answers have to be excluded as well |
| RetryLoop.EnterRestartCycle | src/afs/afs_analyze.c:490-512 | A fresh request gets into the restart cycle with its first call |
| RetryLoop.EnterChangingHostsCycle | src/afs/afs_analyze.c:593-618 | And into the cycle of changing hosts |
| RetryLoop.PotentialFalls | src/afs/afs_analyze.c:460-618 | Using up one level, address or host, and giving none back, lowers the potential |
| BufferPool.FourBuckets | src/afs/afs_buffer.c:59-66 | All pages of a file hash to the buckets of its first four pages |
| BufferPool.WriteBackOk | src/afs/afs_buffer.c:478-490 | Writing a buffer back changes what no reader sees |
| BufferPool.EmptyOk | src/afs/afs_buffer.c:333-345 | Taking over an unlocked clean buffer changes what no reader sees |
| BufferPool.FillOk | src/afs/afs_buffer.c:211-246 | Filling a buffer with a page nobody has buffered shows on that page only, and not even there if it is what the disk has |
| BufferPool.ZappedViews | src/afs/afs_buffer.c:456-476 | Zapping brings the disk's pages of that file back into view and leaves all other files alone |
| BufferPool.SavedPageIsOnDisk | src/afs/afs_buffer.c:518-553 | A page covered by no dirty buffer and nobody's modification is on disk as it is seen |
| PageBuffers.Pool.constructor | src/afs/afs_buffer.c:94-150 | Empty buffers in no bucket; every page is seen as it is on disk |
| PageBuffers.Pool.Search | src/afs/afs_buffer.c:152-203 | The unrolled walk finds a buffer with the page if and only if there is one |
| PageBuffers.Pool.Front | src/afs/afs_buffer.c:161-161 | The buffer is first on its chain, and all chains are kept |
| PageBuffers.Pool.FixupBucket | src/afs/afs_buffer.c:256-278 | A buffer whose header changed leaves its old bucket, if it was on one, and is on the right one |
| PageBuffers.Pool.StartOver | src/afs/afs_buffer.c:312-325 | When the counter has wrapped all access times are zero and any unlocked buffer will do |
| PageBuffers.Pool.PickOldest | src/afs/afs_buffer.c:325-336 | An unlocked buffer of least access time, whatever the hint, and none if and only if all are locked |
| PageBuffers.Pool.NewSlot | src/afs/afs_buffer.c:281-375 | None if and only if all buffers are locked; otherwise an unlocked one of least access time, its old page written back, in the right bucket for the new one, with every reader's view unchanged |
| PageBuffers.Pool.DRead | src/afs/afs_buffer.c:152-254 | Returns a pinned buffer with exactly what a reader of the page sees and changes nobody's view, also when it evicts or fails; fails exactly when the page is neither buffered nor readable or all buffers are locked; a hit only pins the buffer, renews its access time and moves it to the front; otherwise at most one buffer is taken, unpinned and of least access time, and all others keep page, pins and data |
| PageBuffers.Pool.DNew | src/afs/afs_buffer.c:555-590 | A pinned buffer for the page; the pool stays in order if and only if no other buffer had the page already, so always if none had it before; the length covers the page |
| PageBuffers.PageTwice | src/afs/afs_buffer.c:555-590 | A case: a page made anew twice is in two buffers, and the pool is out of order |
| PageBuffers.Pool.DRelease | src/afs/afs_buffer.c:377-411 | One pin less, dirty if so reported, and nobody's view changed |
| PageBuffers.Pool.DZap | src/afs/afs_buffer.c:456-476 | All buffers of the file are emptied, pinned or dirty as they are, and no other |
| PageBuffers.Pool.DFlushDCache | src/afs/afs_buffer.c:493-516 | All dirty buffers of the file are written; its pages that nobody is modifying are then on disk as seen |
| PageBuffers.Pool.DFlush | src/afs/afs_buffer.c:518-553 | Afterwards every page that nobody is modifying is on disk as readers have seen it, and no view has changed |
| TraceLog.HeaderKeepsSize | src/afs/afs_icl.c:600-602 | The type fields never reach into the size byte |
| TraceLog.HeaderComesBack | src/afs/afs_icl.c:600-602 | The size and the four types are read back from the first word by their shifts |
| TraceLog.RecordReads | src/afs/afs_icl.c:600-655 | A record is read back whole: size, types, operation, thread and time from its first four words, and each parameter from the words behind them |
| TraceLog.TimestampReads | src/afs/afs_icl.c:546-566 | So is a timestamp record, with the time as a date |
| TraceLog.RecordIsRecord | src/afs/afs_icl.c:557-611 | The size counted beforehand is the number of words the record takes |
| TraceLog.StringComesBack | src/afs/afs_icl.c:449-480 | A logged string is read back from its words, whatever stale bytes follow its null |
| TraceLog.RenderedSize | src/config/icl.h:153-167 | Each parameter takes exactly the words counted for it |
| TraceLog.Log.EatRecord | src/afs/afs_icl.c:433-442 | One whole record goes, and the base moves by exactly its words |
| TraceLog.Log.GetLogSpace | src/afs/afs_icl.c:428-444 | Only whole records go, from the oldest on, and no more than have to: without the last that went too little was free; it ends with more than the wanted words free |
| TraceLog.Log.AppendInt32 | src/afs/afs_icl.c:483-490 | One word more at the end of the stream, across the end of the array |
| TraceLog.Log.AppendString | src/afs/afs_icl.c:449-480 | The words appended hold the string and its null byte by byte, as many as were counted |
| TraceLog.Log.AppendParam | src/afs/afs_icl.c:613-655 | The words appended are the parameter |
| TraceLog.Log.AppendTimestamp | src/afs/afs_icl.c:546-566 | The five words of a timestamp record, at the cost of no more old records than its size needs |
| TraceLog.Log.AppendRecord | src/afs/afs_icl.c:521-776 | The stream grows by a due timestamp record and the record, or just that if the record is too large; no more old records go than each of the two needs; the log stays whole records and never full |
| TraceLog.Log.CopyOut | src/afs/afs_icl.c:843-947 | Returns exactly the slice of the endless stream at the cookie, across the end of the array, and reports missed output exactly when a nonzero cookie was overtaken |
| NameRings.ThreadInsert | src/afs/afs_osidnlc.c:112-129 | Linking an entry in front of its ring keeps every ring and the free list |
| NameRings.ThreadRemove | src/afs/afs_osidnlc.c:345-363 | Unlinking an entry anywhere in its ring keeps every ring and the free list |
| NameCache.Cache.GetMeAnEntry | src/afs/afs_osidnlc.c:74-109 | A free entry, or the oldest of the next used bucket; one is always found, so the panic is never reached |
| NameCache.Cache.NextBucket | src/afs/afs_osidnlc.c:87-92 | The scan meets a used bucket before it gives up |
| NameCache.Cache.InsertEntry | src/afs/afs_osidnlc.c:112-129 | The entry is on the bucket of its key |
| NameCache.Cache.Unlink | src/afs/afs_osidnlc.c:345-359 | The entry leaves its bucket; everything on a bucket has a prev pointer, so the panic is never reached |
| NameCache.Cache.DropEntry | src/afs/afs_osidnlc.c:345-363 | The entry goes from its bucket to the free list |
| NameCache.Cache.Find | src/afs/afs_osidnlc.c:161-179 | Finds the entry of a name if and only if there is one; a cycle is never seen |
| NameCache.Cache.Enter | src/afs/afs_osidnlc.c:132-196 | Afterwards the name is cached with this vnode, unless it is too long or the directory not current; exactly one entry is overwritten: the name's own, or the one at the front of the free list, which nobody has, or the oldest of a bucket; all other names stay |
| NameCache.Cache.Lookup | src/afs/afs_osidnlc.c:199-341 | A hit is the vnode entered last and not removed or purged since; a cached name whose vnode is not being set up is hit; entries of other names stay |
| NameCache.Cache.Remove | src/afs/afs_osidnlc.c:366-413 | The name is not found any more, whether or not the write lock could be had, and the entries of all other names stay as they are; without the lock none is moved |
| NameCache.Cache.PurgeDp | src/afs/afs_osidnlc.c:424-457 | The directory's names and the names for it are forgotten, and no other, with or without the lock |
| NameCache.Cache.PurgeVp | src/afs/afs_osidnlc.c:468-501 | All names for the vnode are forgotten, and no other, with or without the lock |
| NameCache.Cache.Purge | src/afs/afs_osidnlc.c:509-531 | Everything is forgotten, with or without the lock |
| NameCache.Cache.constructor | src/afs/afs_osidnlc.c:544-564 | All 300 entries free and all buckets empty |
| Resync.SomeoneReady | src/afs/afs_disconnected.c:1115-1281 | If nothing waits in a circle some vnode in the queue is ready |
| Resync.RotationNears | src/afs/afs_disconnected.c:1260-1266 | Moving a deferred vnode to the back brings the next ready one nearer |
| Resync.NobodyEverReady | src/afs/afs_disconnected.c:1260-1266 | If none in the queue is ready none is after any number of rotations |
| Resync.StuckInACircle | src/afs/afs_disconnected.c:1260-1266 | And then something does wait in a circle |
| Resync.UnmadeIsFlagged | src/afs/afs_disconnected.c:1132-1140 | The creation flag of a vnode is set exactly while it is neither made nor dealt with in what has happened so far |
| Resync.ReadyInOrder | src/afs/afs_disconnected.c:501-539 | What is ready has its directory made, and its dirty entries dealt with |
| Resync.PutOffIfTooEarly | src/afs/afs_disconnected.c:501-539 | And what is put off would be out of order now: its directory is not made yet, or a dirty entry of the directory to be removed is not done with |
| Resync.ParentFlag | src/afs/afs_disconnected.c:1115-1140 | On the first time round a vnode's directory is still to be made at its turn exactly if it is not prompt: not earlier in the queue, or put off itself |
| Resync.FirstTurnJudged | src/afs/afs_disconnected.c:547-625 | So a rename, which is never put off, is sent after its new directory has been made if and only if that is prompt |
| Resync.RenameTooEarly | src/afs/afs_disconnected.c:547-625 | A case: a file dirty before the directory it was renamed into was made is renamed first |
| Resync.Client.CheckDeletedChildren | src/afs/afs_disconnected.c:363-389 | Tells whether any entry of the shadow directory is still dirty |
| Resync.Client.GetParentVCache | src/afs/afs_disconnected.c:501-539 | Goes on only if the parent, when it was to be made, has been made; defers exactly while that has not happened yet, and then the parent is still in the queue |
| Resync.Client.ProcessOpRemove | src/afs/afs_disconnected.c:906-991 | The removal is sent exactly when nothing blocks it |
| Resync.Client.ProcessOpCreate | src/afs/afs_disconnected.c:649-760 | The creation is sent exactly when the directory exists |
| Resync.Client.Send | src/afs/afs_disconnected.c:1166-1218 | Rename, status and changes in turn up to the first failure |
| Resync.Client.Attempt | src/afs/afs_disconnected.c:1127-1218 | All is done exactly if nothing blocks the vnode and every call its flags ask for succeeds, the status fetch and the sending of changes among them; otherwise the result is EAGAIN for a blocked one, or the first failing answer, and a vnode that has been made stays made |
| Resync.Client.Turn | src/afs/afs_disconnected.c:1115-1281 | The vnode at the front leaves the queue exactly if every call its flags ask for succeeds, goes to the back exactly when it is blocked, or ends the replay with the first failing answer; creations and removals stay in an order the server can follow |
| Resync.Client.ResyncDisconFiles | src/afs/afs_disconnected.c:1100-1288 | Without circular waits the loop ends: with 0, and each vnode dirty at the start had a turn at which every call its flags asked for succeeded, or with the first failing answer of the last turn, whose vnode and all that are not done with are left as they were; directories were made before vnodes were made in them or removed from them, and emptied before they were removed; each rename was sent after its new directory was made if and only if that was prompt in the first queue |
| Dynroot.BlobsJustFit | src/dir/dir.c:118-126 | An entry takes just as many chunks as its name with its null needs: 16 bytes of it fit in the first, 32 in each further one |
| Dynroot.ComputeSize | src/afs/afs_dynroot.c:328-383 | The dry-run pass reaches the position after all names |
| Dynroot.ComputeDirEnt | src/afs/afs_dynroot.c:191-203 | One name on, with the flip to a new page |
| Dynroot.PlacesDisjoint | src/afs/afs_dynroot.c:209-270 | Entries lie behind one another without overlap |
| Dynroot.PlacesPacked | src/afs/afs_dynroot.c:191-203 | No room is wasted: an entry follows the one before it unless what is left of the page is too little for it |
| Dynroot.PlaceBounds | src/afs/afs_dynroot.c:209-270 | Every entry is inside its page, off the headers, and on a page the dry run counted |
| Dynroot.AllocationMapHolds | src/afs/afs_dynroot.c:228-243 | All writes of allocation counts stay inside the table of 128 if and only if the dry run ends below page 128: the source does not look |
| Dynroot.AllocationMapOverflows | src/afs/afs_dynroot.c:228-243 | A case: with 128 names that take a page each a count is written behind the table |
| Dynroot.ChainReads | src/afs/afs_dynroot.c:258-263 | Following a hash chain reads the names with that hash, the last first |
| Dynroot.OnChainExactly | src/afs/afs_dynroot.c:258-263 | All names with that hash, each once |
| Dynroot.Directory.AddDirEnt | src/afs/afs_dynroot.c:209-270 | The entry is where the dry run has it; bitmaps mark exactly headers and entries; each count is the free chunks of its page; hash chains are right |
| Dynroot.Directory.MarkChunks | src/afs/afs_dynroot.c:252-256 | Exactly the entry's chunks are marked |
| Dynroot.RebuildDynroot | src/afs/afs_dynroot.c:309-464 | Both passes: the directory has exactly the pages the dry run asked for, and the fill pass ends on the last of them |
| BackgroundQueue.Table.BQueue | src/afs/afs_daemons.c:617-667 | The request goes into a slot that daemon and users have all let go of; none is returned exactly when there is none |
| BackgroundQueue.Table.Oldest | src/afs/afs_daemons.c:983-995 | The smallest stamp in wrapping arithmetic is the request queued first |
| BackgroundQueue.Table.Claim | src/afs/afs_daemons.c:983-1000 | The k-th request started is the k-th queued, and each is started once |
| BackgroundQueue.Table.BRelease | src/afs/afs_daemons.c:593-604 | The slot is free exactly when the daemon and all users have let go, and is not started again before; the other slots, and the rest of this one, do not change |
| BackgroundQueue.StampsCompare | src/afs/afs_daemons.c:988-993 | Stamps within half a cycle compare as the numbers do |
| CellNames.NewOk | src/afs/afs_cell.c:235-254 | A new name keeps names and numbers distinct, and the next number above them all if and only if its number is not the last of 32 bits |
| CellNames.DecodeOk | src/afs/afs_cell.c:352-394 | So does reading any file whatever, if and only if no record that is accepted takes the last 32-bit number |
| CellNames.LastNumberOverflows | src/afs/afs_cell.c:249-252 | A case: one record with that number, and the next number is negative |
| CellNames.ReadsExactlyRecords | src/afs/afs_cell.c:352-394 | A record is read exactly where the file begins with the magic number, a number, a length and that many bytes, and its name is what comes before the first null |
| CellNames.WrittenComesBack | src/afs/afs_cell.c:352-394 | What was written is read back name by name, and reading goes on with what the file has behind it |
| CellNames.RoundTrip | src/afs/afs_cell.c:433-462 | Reading just what was written into an empty list gives the used names and numbers in reverse order |
| CellNames.RoundTripBeforeTail | src/afs/afs_cell.c:352-394 | With anything behind what was written the used names come back if and only if that does not start with a record of a name and number not written |
| CellNames.RewrittenRoundTrip | src/afs/afs_cell.c:404-466 | The same for a file written over an older one, which is not cut off: the condition is on the older file from where writing ends |
| CellNames.OldTailComesBack | src/afs/afs_cell.c:404-466 | A whole old record behind the new ones comes back as well, at the head of the list |
| CellNames.Table.NewName | src/afs/afs_cell.c:235-254 | The name is at the head with the number asked for, or the next; the table stays in order if and only if that is not the last 32-bit number |
| CellNames.Table.LookupId | src/afs/afs_cell.c:261-271 | Finds a name with this number if and only if there is one |
| CellNames.Table.LookupName | src/afs/afs_cell.c:278-288 | Finds a cell with this name if and only if there is one |
| CellNames.Table.Ref | src/afs/afs_cell.c:294-301 | The name is in use, and the list worth writing if it was not before |
| CellNames.Table.Init | src/afs/afs_cell.c:313-399 | The list is what the file decodes to, in order if and only if the last 32-bit number is not taken |
| CellNames.Table.Write | src/afs/afs_cell.c:404-466 | The used names, head first, over the beginning of the file; nothing if the list is not dirty |
| CellNames.ForgottenNameComesBack | src/afs/afs_cell.c:404-466 | A case with files the table itself wrote: a name used once and not again is back at the third start |
| MemCache.StoredTwice | src/afs/afs_memcache.c:265-273 | Two stores end to end are one store |
| MemCache.LoadStored | src/afs/afs_memcache.c:226-230 | A store is read back, a gap before it is zeros, and all else stays |
| MemCache.LoadedExactly | src/afs/afs_memcache.c:129-138 | A read returns as many bytes as are wanted or there are from the offset on, each from its place |
| MemCache.Entry.Read | src/afs/afs_memcache.c:114-138 | What there is of the bytes asked for |
| MemCache.Entry.Readv | src/afs/afs_memcache.c:144-176 | The pieces make up exactly what one read would have returned, filled in order |
| MemCache.Entry.Grow | src/afs/afs_memcache.c:202-224 | Room for the bytes without a change to the contents, or a failure that changes nothing |
| MemCache.Entry.Write | src/afs/afs_memcache.c:195-234 | The contents after a store, zeros in a gap; unchanged when there is no memory |
| MemCache.Entry.Writev | src/afs/afs_memcache.c:237-280 | The same as one store of the bytes the vector makes up |
| MemCache.Entry.Truncate | src/afs/afs_memcache.c:322-346 | The contents cut off at a length |
| Codecs.OffsetsAgree | src/afs/afs_chunkops.h:29-44 | Base plus offset is the offset, and the chunk number gives the same base and size |
| Codecs.ChunksTile | src/afs/afs_chunkops.h:29-44 | Each offset below a chunk's size is in that chunk and no other, and chunks follow one another without a gap |
| Codecs.PagSurvives | src/afs/afs_osi_pag.c:520-542 | Every number with A for its top byte survives the split into two groups |
| Codecs.GroupsSurvive | src/afs/afs_osi_pag.c:492-517 | Two groups give a number only if they are the two that number is split into |

## Left out

- Locks: the recursive Bozon lock, instrumentation fields and time accounting; a thread here asks for one lock at a time.
- Callbacks: two vcaches in one hash bucket of the vcache table, callback interfaces over the network, and volume lists beyond what the check reads of them; `LearnSound` lets a new vcache appear without status.
- Callbacks: the loops of `afs_FlushServerCBs` and of a server's callback and reset calls over the vcache table; each vcache they touch is one `Break` event of a run.
- Callbacks: the clock going backwards, and a promise for a queued vcache that is shorter than what was left of the old one; `UsualRunsCanRun` tells when that cannot be.
- Disk cache: the contents of cache files and their versions, the reference counts and locks of entries in core, the LRU queue, shadow directories (which set the byte count directly), and file I/O errors; slots that are dirty or in use are a set given to `TryToSmush`.
- Disk cache: `DiskCache.SlotTable.FreeDiscardedDCache` gives the lock up between its two halves; they are two methods here, `PopDiscarded` and `FinishFreeing`, each of which keeps the invariant, and the rest of reclaiming after `Victims.SelectVictims` is not modelled.
- Disk cache: one slot per chunk is not assumed of the cache-info file read at start-up, so it is a property of its own beside the invariant; `afs_DCacheMissingChunks` only counts a chain that `DvChain` describes.
- Retry loop: token errors, volumes or cells that cannot be found, hard mounts, disconnected operation, and other requests changing the volume's status during a wait; the location server's answer is an input, and its lists name servers that are known.
- PageBuffers.Pool.constructor: excludes memory caches, whose first file has inode 0: there a page that is zapped while pinned, and then released as changed, would be written into that file.
- PageBuffers.Pool.DRead: excludes a counter that comes round to zero between two replacements, which the source assumes away as well.
- PageBuffers.Pool.DRelease: the last holder of a changed buffer has to report the change; the source trusts its callers with that.
- Page buffers: write errors, and reuse of a cache file's inode by another file; a page is one value.
- Trace log: cookies are unbounded numbers here, the option that empties the log after reading and waiting for output are left out, and a long takes one word.
- TraceLog.Log.AppendRecord: the log has more words than what is appended; with fewer the source never stops making room.
- Name cache: statistics, the switch that turns the cache off, and the other thread that might run between giving up the read lock and asking for the write lock in a removal.
- Resync: conflict policies and RPC contents are outcome codes, so that a conflict the server wins, where nothing is sent, is a `send` of 0; discarding shadow directories at the end is left out. A vnode flagged as both removed and created only has to be removed; for renames the queue is one that nothing has been replayed of yet, as built by the operations, which never flag a vnode to be made for anything else that is ordered.
- Dynroot.RebuildDynroot: only for lists that fit the table of 128 counts, by `AllocationMapHolds`, and names that fit on a page; the source writes outside its tables for others.
- Dynroot: the list of cells, aliases and links is the same in both passes.
- Background queue: what daemons do with a request, and sleeping for a free slot.
- Cell names: negative lengths in a damaged file end the reading, where the source passes them on.
- Memory chunks: transfers from and to user memory and the network, and negative offsets of stores.
- Authentication groups: throttling of new groups, and the one-group variant.
- NFS translator, PAG manager, kernel and VM glue, credentials, statistics, tracing calls and cache bypass.
- `afs_RemoveAxs` and discarding all shadow directories: the source unlinks entries there it has not compared, or twice.

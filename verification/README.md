# HeMem and FlexKVS, verified

HeMem is a user-level memory manager for machines with DRAM and persistent memory (NVM). It keeps a
structure for every 2 MB frame, moves hot data to DRAM and cold data to NVM while the application
runs, and decides what is hot from sampled accesses. FlexKVS, the key-value store that ships with it,
keeps its items in a segment log that is cleaned while requests are served. This project models the
state machines of both and proves what they rely on. `dafny verify dfyconfig.toml` checks all of it.

## The page manager

`PebsState` and `PebsSteps` give the state (pages, six FIFO lists, three request rings, the global
clock, two cooling cursors, the address index) and its steps as functions: allocate, unmap, sample, and
one pass of the policy thread. `PebsInvariant`, `PebsPreservation`, `PebsMigration`, `PebsCooling` and
`PebsRuns` prove one invariant through every step and therefore on every run; `PebsAgeing` compares the
lazily aged access counters with eager ageing. `PebsEffects`, `PebsPromotion` and `PebsCooling` write
out, in numbers, list by list and page by page, what the steps do. `PebsManager` is the code: a class whose methods have the
loops, branches and assertions of the source, each proved to compute the step it implements.

- No page is ever lost or on two lists, no two present pages share a frame even in the middle of a swap,
  and every assertion of `make_hot`, `make_cold`, the ring loops, `partial_cool` and `next_page` holds.
- The assertion `np != NULL` in the migration loop can fail. `MigrateLoopAborts` gives the exact
  condition: no frame free in either tier, a cold DRAM page to evict, and a page to promote.
  `JamIsReached` is a run that gets there. One free frame is enough to rule it out, and a pass conserves
  the number of free frames.
- A migration promotes the oldest hot NVM pages with eight reads and evicts cold DRAM pages only when the
  free frames do not do; it gives up only when DRAM has neither (`MigrateLoopDoes`). Cooling happens
  exactly when asked for (`PartialCoolSweeps`), and a sample puts its page on the right list by way of
  the rings (`SampleCorrectsHeat`).
- Lazy ageing is never above eager ageing and never more than one below it, and the gap of one is reached.

`MigrationProtocol` takes one migration apart into its shared accesses and interleaves them with any
reads and writes of the application; `MigrationSteps` shows that every promotion and eviction of the
page manager is such a migration. `Fifo` and `SpscRing` are the linked lists and the rings
underneath, the ring also as a two-thread machine in which every step is a single shared access;
`PebsRings` shows that the three request rings are such rings.
`PageIndex` is the hash table from addresses to pages with its bucket doubling. `LruScan` is the scan of
the second policy, and `LruFate` what it does to one page over any number of scans.

## The key-value store

`KvTable` is the bucket table against a finite map, `KvLog` the byte account of a segment, `KvInvariant`
references, segments and their owners, `KvCore`, `KvAlloc` and `KvWalk` what each operation does to
them on values, `KvIalloc` the item allocator as functions. `KvStore` is the store as a class, with
`KvRecycle` and `KvMaintenance` (recycling and the cleaning walk), `KvServer` (GET, SET and `clean_log`),
`KvRuns` (any sequence of these) and `KvBadRuns` (two that end badly) on top.
`KvQueue` is the cleanup queue as an array, `JenkinsHash` the key hash.

- Cleaning never changes the key-to-value map, whether or not a relocation's compare-and-set goes
  through; a GET returns the last value stored.
- A count is always the table's link plus the references held, so an item is freed exactly when the last
  reference goes; a segment is recycled exactly when nothing in it is referenced; every segment is in
  one log, in one reserve, or free.
- Maintenance recycles a segment even if the core's own walk stands in it, and does not move the walk.
  With room in the queue that is harmless: the same call walks over the dead items to the end. With a
  full queue (`FindsStale`) the call leaves the walk in a free segment, and the store's invariant is
  broken. `Maintain` has both directions; `StaleRun` is a run from an empty store that gets there.
- The length written into the tail filler is 16 bits wide. A walk goes astray if and only if it reaches a
  filler whose length does not fit with room left in the queue (`FindsMisfit`); `AstrayRun` gets there.
  No other result depends on item sizes.
- Cleaning fails, where the program aborts, exactly when an item that others refer to finds no segment
  for its copy (`CleanLog`). As many segments to get as items to clean are enough to rule it out.
- These are the only three ways in which a run ends early. `Run` gives the states between its requests,
  and the state before the last one decides (`MaintenanceEnds`, `CleaningEnds`).
- A compare-and-set never replaces an item on an overflow chain (`ChainedNotInSlot`): cleaning copies
  such an item, drops the copy, and leaves the item where it is (`CleanOne`).
- The maintenance call that finds the first segment to clean does not walk it: `size` is still zero.

## Where code and description differ

- `ring_buf_size` reports the capacity for a full ring, which holds one entry less (src/spsc-ring.c:73-93).
- `hemem_wp_page` goes on when protecting fails with EBADF or ENOENT. `ProtectionDecides`: the
  application is safe from then on if and only if the protection succeeded.
- The comment of `hasht_put` promises a compare-and-set on the object stored for the key; the code
  compares only with the five slots (apps/flexkvs/server/hashtable.c:197-199).

## Model

| member | source | states |
|---|---|---|
| `PebsRuns.RunInv` | src/pebs.c:517-706 | After every hint-free run from initialisation, of any allocations, unmaps, samples and policy passes: each page is on exactly one of the six lists, tier and hot flag agree with the list (except for pages waiting in the free ring), free-list pages are not present, cursors lie on their hot lists, rings hold no duplicates, the index is exact, and frames are a bijection. |
| `PebsRuns.StepKeepsInv` | src/pebs.c:517-706 | Every single step that can be taken keeps that invariant. |
| `PebsRuns.InitInv` | src/pebs.c:911-940 | The invariant holds after page creation. |
| `PebsInvariant.FramesBijective` | src/pebs.c:912-935 | Under the invariant the map from page structures to (tier, offset) is a bijection onto the frames created at initialisation. |
| `PebsInvariant.FramesSwap` | src/pebs.c:627-632 | Exchanging the frames of two pages keeps every frame in use exactly once. |
| `PebsMigration.MidSwapNoSharing` | src/pebs.c:627-632 | Before, in the middle of, and after a swap no two present pages share a frame, and the frame copied into belongs to no present page. |
| `PebsPreservation.AllocateInv` | src/pebs.c:708-745 | Allocating and mapping a page keeps the invariant. |
| `PebsPreservation.UnmapInv` | src/pebs.c:858-875 | Unmapping a page keeps the invariant, with the page waiting in the free ring. |
| `PebsPreservation.SampleInv` | src/pebs.c:155-219 | A sample keeps the invariant, for any address and either event. |
| `PebsPreservation.DrainFreeInv` | src/pebs.c:520-539 | Emptying the free ring keeps the invariant. |
| `PebsPreservation.ServeRingInv` | src/pebs.c:543-594 | Serving hot or cold requests, stale ones included, keeps the invariant. |
| `PebsPreservation.MoveCursorsOk` | src/pebs.c:472-486 | Moving the cursors off a page: a cursor on it goes to the page before it on the hot list, or to null if it is the first; a cursor elsewhere stays; each is then null or on its own hot list. |
| `PebsMigration.PromoteInv` | src/pebs.c:619-643 | Promoting the held page into the oldest free DRAM frame restores the full invariant. |
| `PebsMigration.DemoteInv` | src/pebs.c:649-681 | Evicting a cold DRAM page keeps the invariant with the promoted page still in hand. |
| `PebsMigration.MigrateOneInv` | src/pebs.c:598-683 | Every page one iteration of the migration loop dequeues is back on a list afterwards; counters and the number of free frames are kept. |
| `PebsMigration.MigrateLoopInv` | src/pebs.c:597-684 | The migration loop keeps the invariant, every counter and the total number of free frames. |
| `PebsSteps.MigrateOneShrinks` | src/pebs.c:597-684 | Every iteration that does not leave the loop shortens the NVM hot list, so the loop terminates. |
| `PebsMigration.MigrateLoopAborts` | src/pebs.c:660-682 | The assertion `np != NULL` fails if and only if, when the loop starts, no frame is free in either tier, a cold DRAM page exists, and some page of the NVM hot list still counts as hot. |
| `PebsPromotion.MigrateLoopDoes` | src/pebs.c:597-684 | The loop deals with the m oldest pages of the NVM hot list, for some m: those with eight reads are promoted, in order, to the front of the DRAM hot list, the others join the NVM cold list; cold DRAM pages are evicted, oldest first, only as many as the free DRAM frames do not cover; no other present page changes frame; a cursor on a page taken restarts at the head. It ends with m the whole list, or the byte budget spent, or at a page with eight reads when DRAM has neither a free frame nor a cold page. |
| `PebsPromotion.MigrationFates` | src/pebs.c:597-684 | The same page by page: a page that leaves the NVM hot list is in a DRAM frame on the DRAM hot list if it has eight reads, else cold in NVM; an evicted page is cold in NVM; and the condition under which the loop stops. |
| `PebsRuns.PolicyPassInv` | src/pebs.c:517-692 | A policy pass keeps the invariant and fails exactly when the state after its requests is jammed in that sense. |
| `PebsRuns.PassNeedsOneFrame` | src/pebs.c:617-683 | With one frame free, or one page waiting in the free ring, the pass never fails. |
| `PebsEffects.PassDoes` | src/pebs.c:517-692 | A pass that does not fail: requests, then migration, then both tiers cooled, DRAM first; cooling is left out exactly when migration stopped for want of a DRAM frame. |
| `PebsEffects.RequestsDo` | src/pebs.c:520-594 | The free ring is emptied onto the free lists; then hot requests are served, up to 2^20 of them for pages in use, then cold ones, up to 128. |
| `PebsEffects.ServeRingDoes` | src/pebs.c:543-594 | Requests are served in order until there are none or the budget of live ones is spent; each served page in use has the heat asked for, is on the list of its tier for it, and waits no more; every other page keeps its record and its list. |
| `PebsEffects.DrainFreeDoes` | src/pebs.c:520-539 | Every waiting page goes to the free list of its tier, and no other page moves. |
| `PebsEffects.SampleIs` | src/pebs.c:155-219 | One sample in numbers: the count goes up by one; a request goes to the hot ring exactly if the page has eight reads and is not hot, to the cold ring exactly if it has fewer and is hot, in both cases only if none is under way; both counts are divided by two to the ticks missed; the clock ticks and cooling is asked for exactly if the sampled count is still over 24. |
| `PebsEffects.SampleCorrectsHeat` | src/pebs.c:164-179 | End to end: with empty request rings, a hot page that a sample finds with fewer than eight reads is on the cold list of its tier after the next requests have been served, and a cold page found with eight is on the hot list. |
| `PebsEffects.AllocateIs` | src/pebs.c:708-745 | The page free longest, in DRAM if a frame is free there, else in NVM, becomes the newest cold page of its tier; allocation fails exactly when neither tier has a free frame. |
| `PebsJam.JamIsReached` | src/pebs.c:682 | The assertion is reached: a run from initialisation, of two allocations and eight samples, after which the policy pass fails. |
| `PebsCooling.CoolLoopSweeps` | src/pebs.c:368-408 | One in-place cooling call visits exactly the next min(n, remaining) pages beyond the cursor, each once, and is a filter on that stretch: pages not hot or below the decayed threshold go to the cold list, the rest keep their order, nothing else changes. |
| `PebsCooling.PartialCoolSweeps` | src/pebs.c:348-409 | A call changes nothing if no cooling is asked for; else, from a round that starts at the last page of the hot list if none was under way, it sweeps the next 8192 pages beyond the cursor, or as many as there are. |
| `PebsCooling.SweptFates` | src/pebs.c:378-405 | Each page swept: if it is hot and eight reads are left after one halving per tick, it stays on the hot list, else it is on the cold list and not hot. |
| `PebsCooling.RoundInOneCall` | src/pebs.c:360-401 | A round over at most 8192 hot pages is over in one call: every page has been looked at, and no more cooling is asked for. |
| `PebsCooling.PartialCoolInv` | src/pebs.c:348-409 | Cooling keeps the invariant, so its tier assertions and the list assertion of `next_page` hold. |
| `PebsAgeing.CountersBounded` | src/pebs.c:164-195 | On every run each access counter is at most PEBS_COOLING_THRESHOLD + 1, with equality only for a page whose clock is behind. |
| `PebsAgeing.RingsNeverOverflow` | src/pebs.c:108-118 | With fewer pages than CAPACITY a request put never drops an entry and an unmap never waits for room in the free ring. |
| `PebsAgeing.LazyTracksEager` | src/pebs.c:164-195 | On every run, for every page and event, the lazily aged count is at most the count under eager halving, and at most one below it. |
| `PebsAgeing.GapOfOneIsReached` | src/pebs.c:185-195 | The bound of one is tight: a run that reaches it. |
| `Bits.ShrIsDivision` | src/pebs.c:185-186 | The modelled shift is the quotient by a power of two. |
| `PebsManager.PageManager.constructor` | src/pebs.c:911-940 | The two creation loops give the initial state. |
| `PebsManager.PageManager.AllocatePage` | src/pebs.c:708-745 | DRAM first, then NVM; which page is taken and where it goes; fails only when no frame is free; the tier and presence assertions hold. |
| `PebsManager.PageManager.RemovePage` | src/pebs.c:858-875 | Index removal, ring put and clearing of the record; waits only when the free ring is full. |
| `PebsManager.PageManager.Munmap` | src/hemem.c:578-599 | The page loop takes exactly the pages that start in the range out of the index and leaves every other mapping, up to the page at which the free ring is full and the source spins; with fewer pages than ring capacity there is none. From a start address off the 4 KB boundaries the loop meets no page. |
| `PebsManager.PageManager.ScanSample` | src/pebs.c:155-219 | The body of the sample loop computes the sample step, and does what `SampleIs` says in numbers. |
| `PebsManager.PageManager.UpdateCurrentCoolPage` | src/pebs.c:472-486 | Both cursors move off the page; the list assertions hold. |
| `PebsManager.PageManager.DrainFreeRing` | src/pebs.c:520-539 | The free-ring loop empties the ring onto the free lists of the right tier. |
| `PebsManager.PageManager.MakeHot` | src/pebs.c:283-311 | Moves a cold page to the hot list of its tier; every assertion holds. |
| `PebsManager.PageManager.MakeCold` | src/pebs.c:314-342 | Moves a hot page to the cold list of its tier; every assertion holds. |
| `PebsManager.PageManager.ServeRequests` | src/pebs.c:543-594 | The hot and the cold ring loops; the assertions about freed pages hold. |
| `PebsManager.PageManager.MigrateHotPages` | src/pebs.c:597-684 | The migration loop with its three exits; where each page that leaves the NVM hot list is, and when the loop stops; the presence assertions on partners hold. |
| `PebsManager.PageManager.CoolTier` | src/pebs.c:348-409 | `partial_cool` in place: nothing if not asked for, else the sweep that `PartialCoolSweeps` describes. |
| `PebsManager.PageManager.PolicyThreadPass` | src/pebs.c:517-694 | A whole pass keeps every invariant, migrates and then cools as `PassDoes` says, or fails exactly when jammed. |
| `PebsManager.FrameBounds` | src/hemem.c:678-684 | Every frame of the bijection lies inside its device: the bounds assertions of a migration. |
| `MigrationProtocol.MigrationInvisible` | src/hemem.c:675-748 | In every interleaving of application reads and writes with mark, protect, word-by-word copy, remap and release in which no protection call fails, a read returns the last value written to that word. |
| `MigrationProtocol.RunHolds` | src/hemem.c:787-862 | At every point of every run in which no protection call fails each mapped word holds the last value written to it, and no two mappings share a frame. |
| `MigrationProtocol.CopyKeeps` | src/hemem.c:686-703 | While a page is being copied the words already copied agree with the source. |
| `MigrationProtocol.WokenWriteSucceeds` | src/hemem.c:914-929 | A writer that waited in the fault handler can write once it is woken. |
| `MigrationProtocol.UnprotectedWriteIsLost` | src/hemem.c:898-905 | If write protection fails with an error the code tolerates, then after any history and for any page there is a continuation in which a write is lost. |
| `MigrationProtocol.ProtectionDecides` | src/hemem.c:898-905 | At the protection step of any run: every continuation reads what was last written if and only if the protection succeeds. |
| `MigrationProtocol.MovingRuns` | src/hemem.c:675-748 | A migration that may begin can run to its end, and moves exactly the one mapping. |
| `MigrationSteps.PromoteIsMigration` | src/pebs.c:627-632 | Every promotion of the migration loop is such a migration, with the page structures and the mappings agreeing before and after. |
| `MigrationSteps.DemoteIsMigration` | src/pebs.c:668-673 | The same for every eviction. |
| `Fifo.FifoList.Enqueue` | src/fifo.c:7-25 | The page becomes the first of the list; links, back pointer and count stay exact; the assertions hold. |
| `Fifo.FifoList.Dequeue` | src/fifo.c:27-52 | Returns and detaches the last page, or NULL on an empty list. |
| `Fifo.FifoList.Remove` | src/fifo.c:54-87 | Removes a page from any position and leaves the order of the others. |
| `Fifo.FifoList.NextPage` | src/fifo.c:89-100 | The neighbour towards `first`, or the last page from NULL; the list assertion holds. |
| `Fifo.Relist` | src/pebs.c:299-310 | Moving a page between two lists breaks neither list. |
| `SpscRing.RingBuf.constructor` | src/spsc-ring.c:43-57 | An initialised ring is empty. |
| `SpscRing.RingBuf.Full` | src/spsc-ring.c:150-159 | Full means capacity - 1 entries. |
| `SpscRing.RingBuf.Empty` | src/spsc-ring.c:143-148 | Empty means no entry. |
| `SpscRing.RingBuf.Size` | src/spsc-ring.c:73-93 | Right exactly when the ring is not full; one too many when it is. |
| `SpscRing.RingBuf.Put` | src/spsc-ring.c:102-109 | Appends, dropping the oldest entry when capacity - 1 are held. |
| `SpscRing.RingBuf.Put2` | src/spsc-ring.c:111-125 | Appends, or refuses and changes nothing when full. |
| `SpscRing.RingBuf.Get` | src/spsc-ring.c:127-141 | Takes the oldest entry, or returns NULL when empty. |
| `SpscRing.DeliversInOrder` | src/spsc-ring.c:102-159 | For every interleaving of one guarded producer and one consumer, what has been taken plus what is in the ring is exactly what was pushed, in order. |
| `SpscRing.ProducerKeeps` | src/spsc-ring.c:111-125 | A producer step keeps the shared invariant and never writes `tail`. |
| `SpscRing.ConsumerKeeps` | src/spsc-ring.c:127-141 | A consumer step keeps the shared invariant and never writes `head` or the buffer. |
| `SpscRing.RunKeeps` | src/spsc-ring.c:102-159 | The shared invariant holds after every interleaving. |
| `PebsRings.Request` | src/pebs.c:108-118 | A ring buffer of CAPACITY does to its contents what the manager does to the sequence of requests, a full ring included. |
| `PebsRings.NextRequest` | src/pebs.c:543-544 | The head of the ring loops: the oldest request, or none exactly when there is none. |
| `PebsRings.FreeRequest` | src/pebs.c:865-866 | The guarded put of an unmap waits exactly when the unmap step cannot be taken, and else leaves the free ring of that step. |
| `PageIndex.ToBucketIs` | src/uthash.h:441-444 | Masking with the bucket count less one is the remainder, and a bucket that exists. |
| `PageIndex.DoublingSplits` | src/uthash.h:867 | Doubling sends the items of bucket b to b or to b + n. |
| `PageIndex.IdealChainIsCeil` | src/uthash.h:859-861 | The shift-and-mask expression is the number of items over the new bucket count, rounded up. |
| `PageIndex.Index.Find` | src/uthash.h:176-184 | Returns exactly what the map holds for the key. |
| `PageIndex.Index.Add` | src/uthash.h:407-425 | Adds one binding to the map and the item to the end of the insertion-order list, through any expansion; the table doubles exactly when the chain of the bucket reaches ten items per expansion multiplier, plus ten, and expansion has not been given up. |
| `PageIndex.Index.Delete` | src/uthash.h:461-488 | Removes one binding and the item from the list; deleting the only item frees the table. |
| `PageIndex.Index.MakeTable` | src/uthash.h:223-240 | A new table has 2^21 empty buckets. |
| `PageIndex.Index.Expand` | src/uthash.h:846-896 | Keeps list, map and counts, doubles the buckets; the exact multiplier of every bucket; the non-ideal count is the sum over buckets of what exceeds the ideal length; when expansion is given up. Allocation of the new array is taken to succeed. |
| `PageIndex.Redistribute` | src/uthash.h:862-883 | The nested loops move every item, once, to the bucket its hash selects in the doubled table. |
| `PageIndex.MovedMult` | src/uthash.h:869-874 | One more item in a bucket keeps the closed form of its multiplier. |
| `PageIndex.PushOk` | src/uthash.h:780-790 | Adding an item to its bucket keeps every bucket exact. |
| `PageIndex.PullOk` | src/uthash.h:802-815 | Removing an item from its bucket keeps every bucket exact. |
| `PageIndex.Index.CountsAddUp` | src/uthash.h:783 | The counts of all buckets add up to `num_items`. |
| `PageIndex.Index.OneBucket` | src/uthash.h:441-444 | An item is in bucket hash mod n and in no other. |
| `PageIndex.AddPage` | src/hemem.c:179-187 | The assertion that the address is new holds, and the map gains one binding. |
| `PageIndex.RemoveAt` | src/hemem.c:580-583 | The page at an address, if any, leaves the map. |
| `PageIndex.RunAll` | src/hemem.c:179-203 | Over every sequence of adds, removals and lookups each answer is the one a finite map gives. |
| `LruScan.Scanner.CheckWrites` | src/policies/lru.c:156-195 | Looks at each page of the written list once, in order, and splits it stably three ways; records exactly the pages written again. |
| `LruScan.Scanner.ShrinkCaches` | src/policies/lru.c:66-103 | The same for the active list; records exactly the pages accessed; cold pages start counting afresh. |
| `LruScan.Scanner.ExpandCaches` | src/policies/lru.c:106-154 | The same for the inactive list; records exactly the pages read but not yet often enough (in numbers, `LruFate.ScanFate`). |
| `LruScan.Scanner.Record` | src/policies/lru.c:82-83 | The address goes to the next slot of the array. |
| `LruScan.PassTurn` | src/policies/lru.c:163-194 | In each of the three passes the i-th page looked at is the i-th page of the list as it was, and goes to the one list its bits select. |
| `LruScan.CheckedKeeps` | src/policies/lru.c:156-195 | The pass keeps the pages of the tier; recorded pages and pages still to be looked at are disjoint. |
| `LruScan.ShrunkKeeps` | src/policies/lru.c:66-103 | The same for the second pass. |
| `LruScan.ExpandedKeeps` | src/policies/lru.c:106-154 | The same for the third pass. |
| `LruScan.Scan` | src/policies/lru.c:208-223 | With at most MAX_VAS pages every assertion on `vanum` holds, each tier keeps its pages, no page is recorded twice, the pages recorded are exactly those the six passes record, in order, every recorded address is cleared, and lists, access counts and written flags are those the six passes give. |
| `LruFate.ScanFate` | src/policies/lru.c:66-223 | One scan, page by page and bit by bit: the list, the access count and the recording of every page are those of a small machine: a written page that is read becomes active and one untouched inactive; an active page untouched becomes inactive with count 0; an inactive page that is only read counts one more below four and becomes active with count 0 from four on. |
| `LruFate.ScansFate` | src/policies/lru.c:197-232 | Over any number of scans in a row every page is where that machine takes it. |
| `LruFate.FiveReadsActivate` | src/policies/lru.c:137-146 | An inactive page that starts at count 0 and is read and not written in five third passes in a row is on the active list after the fifth, and on the inactive list before. |
| `LruScan.ClearedOnce` | src/policies/lru.c:220-223 | If pages have different addresses no address is cleared twice. |
| `KvTable.NotInMap` | apps/flexkvs/server/hashtable.c:133-147 | A key at no position of its bucket is not in the map. |
| `KvTable.ReplaceOk` | apps/flexkvs/server/hashtable.c:180-193 | Replacing an item in a slot or on the chain updates one key of the map and keeps the table invariant. |
| `KvTable.FillSlotOk` | apps/flexkvs/server/hashtable.c:222-229 | Filling an empty slot adds one key. |
| `KvTable.PushFrontOk` | apps/flexkvs/server/hashtable.c:224-229 | With all slots taken the new item heads the chain of the last slot, and one key is added. |
| `KvCore.ChainedNotInSlot` | apps/flexkvs/server/hashtable.c:197-199 | An item on the overflow chain is in no slot, so a compare-and-set against it never goes through. |
| `KvCore.RefCoreOk` | apps/flexkvs/server/iokvs.h:211-217 | Taking a reference keeps table, counts and accounts. |
| `KvCore.UnrefCoreOk` | apps/flexkvs/server/iokvs.h:235-246 | Dropping a reference keeps them; the item is freed exactly when the count reaches zero. |
| `KvCore.ReplacedOk` | apps/flexkvs/server/hashtable.c:187-192 | Replacing keeps every count equal to table link plus references held. |
| `KvStore.KvStore.ItemRef` | apps/flexkvs/server/iokvs.h:212-217 | As stated by the reference step. |
| `KvStore.KvStore.ItemUnref` | apps/flexkvs/server/iokvs.h:239-246 | As stated by the drop step; the assertion on the count holds for every held item. |
| `KvStore.KvStore.Find` | apps/flexkvs/server/hashtable.c:133-147 | The search returns exactly the item the map gives. |
| `KvStore.KvStore.HashtGet` | apps/flexkvs/server/hashtable.c:122-156 | The mapped item, with one more reference for the caller, or nothing. |
| `KvStore.KvStore.HashtPut` | apps/flexkvs/server/hashtable.c:159-236 | Without compare-and-set one key is updated; with it only if the expected item is in a slot; contents of items never change. |
| `KvLog.AppendOk` | apps/flexkvs/server/ialloc.c:218-223 | Placing an item keeps freed + live bytes = offset and the end-to-end layout. |
| `KvLog.CloseOk` | apps/flexkvs/server/ialloc.c:206-215 | The unusable tail is counted as freed, once, and the offset reaches the size. |
| `KvLog.FreeOk` | apps/flexkvs/server/ialloc.c:190-195 | Freeing moves the item's bytes from live to freed. |
| `KvLog.RecyclableIffDead` | apps/flexkvs/server/ialloc.c:435-436 | A closed segment's freed bytes equal its size if and only if no item in it is referenced. |
| `KvLog.FillerScan` | apps/flexkvs/server/ialloc.c:207-212 | The arithmetic behind the walk's last step: header plus key length equals the filler if and only if the length fits 16 bits. |
| `KvInvariant.RecycledItemsUnreachable` | apps/flexkvs/server/ialloc.c:436-443 | No item of a recycled segment is linked or held. |
| `KvInvariant.PoolsDisjoint` | apps/flexkvs/server/ialloc.c:423-455 | Logs, reserves and the free list are disjoint. |
| `KvAlloc.TakeFreeOk` | apps/flexkvs/server/ialloc.c:114-126 | Taking the head of the free list keeps all lists. |
| `KvAlloc.CreateOk` | apps/flexkvs/server/ialloc.c:128-165 | Creating a segment keeps all lists. |
| `KvAlloc.AppendOk` | apps/flexkvs/server/ialloc.c:284-288 | A new current segment extends its core's log; exactly the last segment of a log is active. |
| `KvAlloc.ReserveOk` | apps/flexkvs/server/ialloc.c:276-278 | Taking or setting the reserve keeps ownership single. |
| `KvAlloc.UnlinkOk` | apps/flexkvs/server/ialloc.c:436-443 | Unlinking a segment at any position, the oldest included, keeps log and free list. |
| `KvStore.KvStore.constructor` | apps/flexkvs/server/ialloc.c:59-106 | The empty store satisfies every invariant and stands for the empty map. |
| `KvStore.KvStore.AddCore` | apps/flexkvs/server/ialloc.c:227-253 | A core gets a current segment and a reserve, or the call fails. |
| `KvStore.KvStore.SegmentAlloc` | apps/flexkvs/server/ialloc.c:108-172 | From the free list, else fresh; fails exactly when both are exhausted; the segment is empty and nobody else's. |
| `KvStore.KvStore.SegmentItemAlloc` | apps/flexkvs/server/ialloc.c:197-224 | Fails exactly when the item does not fit, writing off the tail; otherwise the address is new. |
| `KvStore.KvStore.IallocAlloc` | apps/flexkvs/server/ialloc.c:255-296 | Exactly when it fails, in both modes, and exactly when the reserve is used; outside cleanup the reserve is untouched; the map does not change. |
| `KvIalloc.IallocStock` | apps/flexkvs/server/ialloc.c:255-296 | An allocation takes at most one of the segments a core can still get, and in cleanup mode succeeds while there is one. |
| `KvIalloc.TakenStock` | apps/flexkvs/server/ialloc.c:331-333 | Refilling the reserve moves a segment and takes none away from the core. |
| `KvStore.KvStore.CleanupItem` | apps/flexkvs/server/ialloc.c:313-335 | The head of the queue unless the per-request limit of 32 is reached, in which case nothing changes; otherwise the counter moves unless idle, and an empty reserve is refilled exactly when a segment can be had. |
| `KvRecycle.RecycleDead` | apps/flexkvs/server/ialloc.c:423-455 | Exactly the dead segments before the last leave the log, in place, and are free; only their unreachable items go; the map stays; the walk's position is not touched; the candidate is as `PickIsChosen` says. |
| `KvRecycle.RecycleOne` | apps/flexkvs/server/ialloc.c:436-443 | Unlinking one dead segment gives it to the free list and keeps every invariant but that on the core's own walk. |
| `KvRecycle.Consider` | apps/flexkvs/server/ialloc.c:444-452 | One more segment is compared with the best so far; the result is as `PickIsChosen` says for the segments seen. |
| `KvRecycle.PickIsChosen` | apps/flexkvs/server/ialloc.c:444-452 | In bytes: a segment chosen was not cleaned before, is not dead, and has at least the clean ratio of its size freed, more than nothing, and no other such segment has a greater share freed; if none is chosen, each has nothing freed or less than the clean ratio of its size. |
| `KvMaintenance.WalkStep` | apps/flexkvs/server/ialloc.c:479-490 | From an item boundary one step leads to the next item; from the filler it leads to the end if and only if the filler's length fits. |
| `KvMaintenance.Walk` | apps/flexkvs/server/ialloc.c:475-492 | Queues exactly the referenced items from the saved position on, in memory order, until the end of the segment or a full queue; it goes astray if and only if the filler is one whose length does not fit and the queue has room after every referenced item up to it. |
| `KvMaintenance.Maintain` | apps/flexkvs/server/ialloc.c:415-494 | For any store: the map is unchanged and no other core touched; the segments, lists and allocators afterwards; an unfinished walk stays in hand, else the segment taken up is the one `PickIsChosen` describes; the first candidate ever is not walked. Two conditions on the state before the call: the walk is left dangling in a free segment, and the invariant broken, if and only if it is unfinished in a segment without live items with a full queue; the walk goes astray if and only if it reaches a filler that does not fit with room in the queue. |
| `KvMaintenance.MaintainSpans` | apps/flexkvs/server/ialloc.c:459-492 | A call that stays on track, by offsets: exactly the referenced items between the saved position, or the start of a segment taken up, and the new position join the queue, in memory order, up to the end of the segment or a full queue; otherwise nothing is queued. |
| `KvBadRuns.StaleRun` | apps/flexkvs/server/ialloc.c:436-443 | The first case is reached: a run from an empty store, of seven SETs and four maintenance calls, that ends with a walk dangling in a free segment. |
| `KvBadRuns.AstrayRun` | apps/flexkvs/server/ialloc.c:206-212 | The second case is reached: a run from an empty store, of two SETs and two maintenance calls, that ends with a walk lost in a filler. |
| `KvBadRuns.LiveIff` | apps/flexkvs/server/iokvs.h:211-246 | An item has references exactly if a key maps to it or some thread or queue holds it. |
| `KvQueue.CleanupQueue.TryPut` | apps/flexkvs/server/ialloc.c:479-488 | The array with empty slots is a bounded queue: a put succeeds exactly when it is not full. |
| `KvQueue.CleanupQueue.Take` | apps/flexkvs/server/ialloc.c:325-330 | Takes the oldest entry, or nothing exactly when the queue is empty. |
| `KvServer.Get` | apps/flexkvs/server/main-ll.c:231-272 | Answers what the map holds and leaves items, counts and table as they were. |
| `KvServer.Set` | apps/flexkvs/server/main-ll.c:273-289 | Updates exactly one key, or changes nothing when allocation fails; says exactly when, and which segments, lists and allocators result. |
| `KvServer.PutCopy` | apps/flexkvs/server/main-ll.c:448-452 | Putting a copy by compare-and-set leaves the map unchanged whether or not it goes through. |
| `KvServer.CleanOne` | apps/flexkvs/server/main-ll.c:439-455 | Cleaning one item leaves the map unchanged and drops the queue's reference. An item nobody else refers to is dead then and nothing is copied; else there is one copy, in the core's current segment: if the item was in a slot the key maps to the copy and the item has lost two references, else the copy is dead and the item stays. Fails exactly when no memory for a copy can be had. |
| `KvServer.CleanLog` | apps/flexkvs/server/main-ll.c:427-458 | For any store and queue the map is unchanged; exactly the first min(32, length) items, or all when idle, are processed, each as one turn of the loop does; counts stay exact. It fails if and only if the last turn met an item that others refer to and no segment for its copy; with as many segments to get as items to clean it does not fail. |
| `KvServer.TurnFailsIff` | apps/flexkvs/server/main-ll.c:439-455 | One turn fails if and only if there is an item within the limit, it is referenced by others, and its copy finds no segment, the reserve included. |
| `KvServer.LogFailsIff` | apps/flexkvs/server/main-ll.c:427-458 | A call fails if and only if one of its turns does, and that is its last. |
| `KvRuns.Run` | apps/flexkvs/server/main-ll.c:231-289 | Over every sequence of GETs, SETs, cleanings and maintenance calls the replies are consistent with a finite map. The states between requests are given, each served from one to the next; only the last request served may end the run early. |
| `KvRuns.Serve` | apps/flexkvs/server/main-ll.c:231-289 | One request: its reply, and the store afterwards. |
| `KvRuns.MaintenanceEnds` | apps/flexkvs/server/ialloc.c:415-494 | A request ends the run with a stale or a lost walk if and only if it is a maintenance call and the state before it meets the condition for that. |
| `KvRuns.CleaningEnds` | apps/flexkvs/server/main-ll.c:427-458 | A cleaning ends the run if and only if one of its turns finds no memory for a copy; never while the core can get as many segments as items are taken. |
| `KvRuns.GetReturnsLastStore` | apps/flexkvs/server/main-ll.c:231-289 | In such a trace every GET returns the value of the last SET of that key that succeeded, whatever cleaning and maintenance came between. |
| `JenkinsHash.UnmixMix` | apps/flexkvs/server/jenkins_hash.c:80-88 | Mixing can be undone. |
| `JenkinsHash.MixUnmix` | apps/flexkvs/server/jenkins_hash.c:80-88 | Every state is the mix of some state. |
| `JenkinsHash.UnfinishFinish` | apps/flexkvs/server/jenkins_hash.c:115-124 | The last mixing can be undone, given all three words. |
| `JenkinsHash.HashByWords` | apps/flexkvs/server/jenkins_hash.c:138-204 | The word path, with its masked reads past the end, computes the hash of the key's bytes. |
| `JenkinsHash.HashByHalves` | apps/flexkvs/server/jenkins_hash.c:206-251 | The half-word path computes the same. |
| `JenkinsHash.HashByBytes` | apps/flexkvs/server/jenkins_hash.c:253-294 | The byte path computes the same. |
| `JenkinsHash.JenkinsHash` | apps/flexkvs/server/jenkins_hash.c:127-298 | For every alignment the result is the hash of the key's bytes. |
| `JenkinsHash.SameBytesSameHash` | apps/flexkvs/server/jenkins_hash.c:127-298 | Corollary of the contract of `JenkinsHash`: equal bytes at any two places give equal results, whatever follows them. |

## Left out

- Kernel and device effects: mapping, userfaultfd, DMA and perf buffers are taken as the steps they are meant to be; write protection blocks writes and a remap switches a page at once.
- Zero-filling of new pages: a mapped page starts with what its frame held.
- The user-hint allocator and enforced pages (src/pebs.c:747-837): not reachable through the interposed calls; all list invariants are for hint-free runs.
- Finer interleaving of the page manager: allocate, unmap, sample and policy pass are atomic steps; an allocation between the two tries of a promotion is not modelled.
- Liveness of requests: a stale request leaves `ring_present` set, and no claim is made that a cooling round ends.
- 64-bit wrap-around of clocks and counters, and shifts by 64 or more, which C leaves undefined: shifts are quotients by powers of two.
- The dummy page at address 0 that the index holds from start-up, and unmapping of that address.
- PebsManager.PageManager.Munmap: it returns where the source spins on a full free ring.
- PebsManager.PageManager.RemovePage: where the source spins on a full ring the method returns false.
- PebsAgeing.RingsNeverOverflow: for fewer page structures than the ring capacity; with more, an unguarded put can drop a request.
- MigrationProtocol.MigrationInvisible: for runs in which no protection call fails (see `ProtectionDecides`); the page is copied word by word, a write is one word, and the page being migrated is not unmapped meanwhile.
- MigrationProtocol.RunHolds: the same.
- SpscRing.RingBuf.constructor: capacity at least two; initialisation asserts that the new ring is empty, which fails for capacity one (src/spsc-ring.c:54).
- SpscRing.DeliversInOrder: an index update is one store; the source stores `capacity` first and then 0 when an index wraps (src/spsc-ring.c:24, 30 and 40), and a reader in between is not modelled.
- PageIndex.Index.Expand: bucket counts are unbounded; the wrap of `num_buckets` at 2^32 and failed allocation of the new array are not modelled. Chains are sequences, not linked handles; the pointer surgery of a doubly linked list is in `Fifo`.
- The hash function of the page index: any function of the address.
- LruScan.Scan: access bits are a function of page and pass, which loses nothing since each pass reads a page once; concurrent faults during a scan are not modelled.
- `lru_kswapd` and LRU allocation: the same frame swap and list moves as the promotion and eviction of the page manager.
- KvStore.KvStore.ItemRef: counts are unbounded; the wrap of the 16-bit `refcount` is not modelled.
- KvStore.KvStore.IallocAlloc: the item is allocated with the contents its caller is about to write; an item size at or above the segment size, which the source asserts against, is excluded by the store's item limit. Failing `malloc` and `mprotect` are not modelled.
- KvMaintenance.Maintain: what the code does after a walk has gone astray in a filler, or in later calls after one has been left dangling: it reads bytes that are no item.
- KvMaintenance.Walk: the same; items of a recycled segment are read as they were before the call, since recycling writes no item.
- KvRecycle.RecycleDead: ratios are exact quotients instead of doubles.
- KvServer.CleanLog: returns false where the source aborts for want of memory.
- Locks and the interleaving of workers inside one store operation: operations are atomic, with references held by other threads as a parameter.
- Fifo, PageIndex.Index, KvQueue and JenkinsHash are proved on their own: the page manager uses lists as sequences and the index as a map, the store uses the queue as a sequence and any function of the key as its hash.
- In-place SET and DELETE of apps/flexkvs/server/main.c, which change item lengths or free linked items.
- Request framing, connections, settings, timers, statistics, benchmarks, and the other policies (hemem-mmgr, paging, simple).
- The big-endian variant of the key hash.

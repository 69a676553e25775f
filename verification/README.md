# Valet: a verified model

Valet is a swap device. Pages swapped out go into a local page table, are shipped to memory
servers over RDMA, and lose their local frame once a server holds them. This project models the
parts of it that carry state across calls and proves what they promise, for every input, every
interleaving or every run.

* **The lock-free array queue** (`Words`, `Claims`, `AlfProtocol`, `AlfTheorems`, `AlfCalls`,
  `EmptyCalls`, `SingleCallers`, `AlfQueue`, `CopyHelpers`). Any number of producers and consumers,
  interleaved at each shared access, on 32-bit counters that wrap. The ring refines a FIFO;
  reservations partition the range between tail and head; without new calls every call finishes; and
  what a call returns is what the abstract queue held at some moment of the call. On a side with one
  caller the single-producer and single-consumer calls, run concurrently with the other side, refine
  that protocol. The queue object's calls and all copy helpers are also in-place methods over arrays.
* **The page life cycle** (`PageCache`, `PageCacheInvariant`, `PageCacheTheorems`, `PageReclaim`,
  `PageTable`). Writes, copies into send buffers, posts, landings, completions and reclaims against the simple map
  from page to last data written: every read returns it. Every processor runs a sender of its own
  (`bd/valet_drv.c:139`, `bd/valet_drv.c:480`), so any run of queued pages may be copied next and any
  buffer posted next; an item split at a border is two such buffers. `PageReclaim` follows every
  frame: what a completion lists, what an allocation takes, and what is lost. `PageTable` is the
  same machine as an object updated in place.
* **The send path** (`SendPath`, `Bitmap`, `Completion`, `Starvation`, `WriteContexts`). Merging, the
  split at 1 GB, addresses, the presence bitmap, and the write contexts of any number of replicas
  under every order of completions, with the exact pool size at which concurrent calls can starve.
* **The servers and the client's mapping** (`Daemon`, `Eviction`, `DaemonSession`, `Agreement`,
  `AgreementInvariant`, `AgreementTheorems`, `AgreementProgress`, `ClientTables`, `StaleFinish`,
  `OverlapRuns`). The
  block table with its counters, eviction and expansion, and the machine of client, servers and
  network: mapping, keys and bitmaps, eviction messages, the search for a destination, delete
  messages in transit.
* **Node selection** (`NodeSelection`).

`Options`, `Config` and `Distinctness` hold what several of these share.

## How to read it

State machines are functions on values (`Next`, `Handle`, `Advance`) with an invariant, a
preservation lemma per step and theorems over `Exec`. Classes hold the fields the program updates
in place, and each method is proved equal to the step it implements. Numbers are unbounded;
32-bit wrap-around is written out with `% TWO32` where the program relies on it.

Hypotheses the program itself relies on are explicit:

* queue: at least one element per call, a head moves fewer than 2^32 positions between a thread's
  read and its compare-and-swap (and its check, `AlfCalls.Timely`), bulk calls only on a power-of-two ring, and on other ring sizes
  the reserved span stays within the collision-free window (`AlfProtocol.Legal`);
* page life cycle: a page is written again only after its first write has completed
  (`PageCache.FirstWriteDone`), a sender does not post a buffer before one that was copied earlier
  with other data for a page that neither a later buffer nor the sending list covers
  (`PageCache.PostHarmless`; with one sender it always holds, `PageCacheInvariant.NoOverlapIsHarmless`),
  an RDMA write does not overtake one to the same page that was posted earlier
  (`PageCache.Enabled`), and the sending list stays within the 262144 entries its ring can tell
  apart (`PageCache.SendingFits`);
* servers: a client asks for a block only after a positive answer, and a delete message names one
  of the sender's blocks (`Eviction.WellFormed`).

## Where the code does something other than it says

* `alf_queue_alloc` accepts any size although the mask needs a power of two, and the driver asks
  for 6553600 slots: positions 262144 apart share a slot (`Words.AliasBound`,
  `Words.ConfiguredQueueWindow`).
* An enqueue with `n == 0` can move `producer.tail` back and hide published elements, and a
  dequeue with `n == 0` can move `consumer.tail` back and keep emptied slots taken
  (`EmptyCalls.EnqueuesSafeIff`, `EmptyCalls.DequeuesSafeIff`).
* The memcpy helpers take a bulk of the whole ring for an empty one
  (`CopyHelpers.MemcpyStoresIff`).
* A new entry starts with a count of 0, so a page rewritten before its first completion can lose
  data (`PageCacheTheorems.LostUpdate`, `PageCacheTheorems.RewriteProtectedIff`).
* `rdma_write` copies a page and posts the copy without anything that keeps two senders in order: if
  a page is rewritten and copied by a second sender that posts first, the server keeps the old data
  although every send completes (`PageCacheTheorems.LostByPostOrder`,
  `PageCacheInvariant.PostKeepsIff`).
* The allocator takes an entry that is UPDATING off the reclaim list and leaves it marked
  RECLAIMABLE, and a completion lists only entries that are not marked. Such an entry is never listed
  again and its frame never reclaimed (`PageReclaim.MissLeaks`, `PageReclaim.LeakedForever`); a pool
  can be used up this way, and then no new page is ever written (`PageReclaim.PoolUsedUp`,
  `PageReclaim.AllocationAtRestIff`).
* A write takes one context per replica before it posts any, and spins while there is none. `m`
  concurrent writes with `r` replicas can hang for good if and only if the pool has at most
  `m * (r - 1)` contexts (`Starvation.CanStarveIff`); the pool the driver creates is larger
  (`Starvation.DriverPoolSuffices`).
* `must_go` in the sender never has an effect (`SendPath.RemoteSender`).
* `prepare_single_mr` and `recv_delete_rb` move the counters even when they found no block
  (`Daemon.MapKeepsAccountsIff`, `Daemon.DeleteKeepsAccountsIff`).
* The age scan of `do_evict` takes a time stamp of 0 for "nothing found yet"
  (`Eviction.PickIsOldestIff`, `Eviction.PickMissesOldest`), so evictions take the oldest blocks
  exactly as long as no written one stands behind a never-written one (`Eviction.OldestGoIff`).
* An eviction without destination leaves its node in CB_MIGRATING: nothing but the late reply to a
  map request already on its way would take it out again (`AgreementTheorems.EvictorsAreRetired`).
  Its last step can mark a block that serves another swap space INACTIVE, which stops that swap
  space's writes (`AgreementTheorems.FinishTakesWriterIff`, `StaleFinish.StaleFinishStopsWriter`).
* The client clears its record when the delete message is sent, not when the server has handled
  it, so a server can keep a block that is no longer on record
  (`AgreementTheorems.ServedBlocksAreAccountedFor`).
* `reset_migration_info` clears the block that is marked, not the one being evicted. If the next
  eviction message arrives between the sending of the delete and the reset, either the reset clears
  the key, address and bitmap of a block still in use, and pages written to it are lost, or the
  thread waits for good and its swap space is refused for good
  (`AgreementTheorems.OverlapSplit`, `AgreementTheorems.ResetWipesIff`,
  `AgreementTheorems.StuckIff`, `OverlapRuns.OverlapLosesPages`, `OverlapRuns.OverlapHangsThread`).
* Such a message, and one overtaken by the reply to a map request, is never answered, and
  `do_evict` waits for good (`AgreementTheorems.LossIff`, `AgreementTheorems.LostForever`).

## Model

| member | source | states |
|---|---|---|
| Words.SlotsDistinct | bd/alf_queue_helpers.h:40-49 | two positions closer than the largest power of two dividing the size never share a slot, also across the 2^32 wrap |
| Words.SlotPow2 | bd/alf_queue.c:29-30 | on a power-of-two ring the masked slot is the remainder of the position |
| Words.AliasBound | bd/alf_queue.c:29-30 | any run of n consecutive positions is collision-free if and only if n is at most the largest power of two dividing the size |
| Words.ConfiguredQueueWindow | bd/valet_mempool.c:508-525 | the configured 6553600-slot queues are collision-free exactly up to 262144 outstanding entries, which covers the 131072-page pool |
| Claims.Reserve | bd/alf_queue.h:110-120 | a successful compare-and-swap extends the partition of the reserved range by an interval with one owner |
| Claims.Publish | bd/alf_queue.h:133-136 | publishing the first interval leaves a partition of the rest |
| Claims.FirstOwner | bd/alf_queue.h:133-134 | a non-empty reserved range has an owner of its first position |
| Claims.OneOwner | bd/alf_queue.h:120-136 | no position has two owners |
| AlfProtocol.SpaceExact | bd/alf_queue.h:111-116 | the 32-bit space computation equals the unbounded one |
| AlfProtocol.ElemsExact | bd/alf_queue.h:150-158 | the 32-bit element count equals the unbounded one |
| AlfProtocol.WordsEqual | bd/alf_queue.h:118-120 | equal 32-bit counters less than 2^32 apart are equal counters, so the compare-and-swap decides as on unbounded ones |
| AlfProtocol.StoreKeepsInv | bd/alf_queue.h:125-126 | a store overwrites no element that some consumer has still to load |
| AlfProtocol.PublishProdKeepsInv | bd/alf_queue.h:133-136 | a producer publishes in reservation order and keeps the invariant |
| AlfProtocol.LoadKeepsInv | bd/alf_queue.h:164-168 | a load takes the element logged for its position |
| AlfProtocol.PublishConsKeepsInv | bd/alf_queue.h:171-174 | a consumer releases positions in reservation order and keeps the invariant |
| AlfProtocol.StepKeepsInv | bd/alf_queue.h:103-182 | every step of every thread keeps consumer.tail ≤ consumer.head ≤ producer.tail ≤ producer.head ≤ consumer.tail + size, the two partitions, and the contents of every published slot |
| AlfTheorems.RunKeepsInv | bd/alf_queue.h:103-182 | the invariant holds after every interleaving |
| AlfTheorems.PowerOfTwoFits | bd/alf_queue.h:110-114 | on a power-of-two ring the window hypothesis excludes no step |
| AlfTheorems.StepRefinesFifo | bd/alf_queue.h:103-182 | each step is a stutter, a put of the producer's own items at the end or a take from the front of an abstract FIFO |
| AlfTheorems.RunConserves | bd/alf_queue.h:103-182 | over any run, what was available and put is what was taken and is still available, in order |
| AlfTheorems.FifoOrder | bd/alf_queue.h:103-182 | from an empty queue, what consumers were handed, what was taken and what was put are prefixes of what producers reserved: no loss, duplication or reordering |
| AlfTheorems.TakenIsLogged | bd/alf_queue.h:143-162 | the takes of a run are exactly the logged items between the old and the new consumer head |
| AlfTheorems.ConsumerHoldsItsPositions | bd/alf_queue.h:162-168 | a consumer that has loaded its reservation holds exactly the items of its positions |
| AlfTheorems.SpaceCheckDecides | bd/alf_queue.h:110-116 | an enqueue gives up if and only if its bulk does not fit behind the head it read, however stale that is; giving up always means the queue is too full, and with a current head it is equivalent to that |
| AlfTheorems.ElemsCheckDecides | bd/alf_queue.h:149-160 | a dequeue returns nothing if and only if the head it read equals producer.tail; then nothing is available, with a current head it is equivalent to that, and else it asks for the smaller of what it sees and wants |
| AlfTheorems.EmptyObserver | bd/alf_queue.h:276-289 | the two separate reads agree if and only if the queue was empty throughout |
| AlfTheorems.CountObserver | bd/alf_queue.h:291-306 | the count equals the distance of the two unbounded counters and is at least what was available at the first read |
| AlfTheorems.AvailSpaceObserver | bd/alf_queue.h:308-327 | the space reported is at least what was free at the first read |
| AlfTheorems.SomeCallCanMove | bd/alf_queue.h:131-134 | whenever a call is in progress some call can take a step |
| AlfTheorems.StepLowersMeasure | bd/alf_queue.h:103-182 | every step of a call in progress lowers a measure over all threads |
| AlfTheorems.CallsFinish | bd/alf_queue.h:103-182 | without new calls every schedule is no longer than the measure |
| AlfCalls.EnqueueOutcome | bd/alf_queue.h:103-139 | an enqueue that returns its number of elements has appended them in order behind everything reserved before, visible on return; one that returns 0 met a queue too full for its bulk at some moment of the call, in particular not just a lost compare-and-swap |
| AlfCalls.DequeueOutcome | bd/alf_queue.h:143-182 | a dequeue returns the front of the queue as it was at some moment of the call, as many elements as wanted or all there were; one that returns 0 met an empty queue |
| EmptyCalls.IdleIsWhole | bd/alf_queue.h:133-136 | with no call in progress nothing is reserved and unpublished, nothing taken and unreleased |
| EmptyCalls.EmptyEnqueueHides | bd/alf_queue.h:103-136 | on any idle queue with room, a schedule of an enqueue of nothing and one of any items after which both have returned, the items are stored and producer.tail is where it was |
| EmptyCalls.EnqueuesEndWhole | bd/alf_queue.h:103-138 | two enqueues that each carry an element leave producer.tail at producer.head, whatever the schedule |
| EmptyCalls.EnqueuesSafeIff | bd/alf_queue.h:103-138 | for any idle queue, counters, ring size and items that fit: every complete schedule of the two enqueues makes all reserved elements visible if and only if the first carries at least one |
| EmptyCalls.EmptyDequeueKeepsSlots | bd/alf_queue.h:142-182 | on any idle queue that is not empty, a schedule of a dequeue of nothing and another dequeue after which the emptied slots still count as taken |
| EmptyCalls.DequeuesSafeIff | bd/alf_queue.h:142-182 | every complete schedule of the two dequeues gives all slots back if and only if the first asks for at least one element |
| SingleCallers.StoringIsAll | bd/alf_queue.h:219-228 | what the only producer has reserved and not published is everything between producer.tail and producer.head |
| SingleCallers.LoadingIsAll | bd/alf_queue.h:254-270 | the same for the only consumer |
| SingleCallers.StepIsGeneral | bd/alf_queue.h:201-273 | each step of the single calls, which write a head without comparing it and a tail without reading it, is one or two steps of the general protocol |
| SingleCallers.StepKeepsAlone | bd/alf_queue.h:201-273 | every step keeps the queue's invariant and each single side to its owner |
| SingleCallers.SingleRefinesGeneral | bd/alf_queue.h:201-273 | every run with single calls on one or both sides ends as a run of the general protocol does |
| SingleCallers.SingleFifo | bd/alf_queue.h:201-273 | FIFO order, without loss or duplication, for a single producer, a single consumer or both, concurrently with the other side |
| SingleCallers.AssertionsHold | bd/alf_queue.h:217-271 | after every run the four assertions of the single calls hold: the head read is still current and the tail to be overwritten is where the call's own reservation begins |
| AlfQueue.StoreAppends | bd/alf_queue.h:216-224 | storing behind the contents appends to them, as long as all fits the window |
| AlfQueue.ArrayQueue.SpEnqueue | bd/alf_queue.h:201-231 | appends the whole bulk when it fits and nothing otherwise |
| AlfQueue.ArrayQueue.ScDequeue | bd/alf_queue.h:236-273 | removes the smaller of available and wanted from the front, in order, and leaves the ring and the rest of the caller's array alone |
| AlfQueue.ArrayQueue.Count | bd/alf_queue.h:291-306 | the number of queued elements |
| AlfQueue.ArrayQueue.AvailSpace | bd/alf_queue.h:308-327 | the number of free slots |
| AlfQueue.ArrayQueue.IsEmpty | bd/alf_queue.h:276-289 | true if and only if nothing is queued |
| CopyHelpers.StoreThenLoad | bd/alf_queue_helpers.h:40-59 | a bulk store followed by a load is the identity for any bulk within the window |
| CopyHelpers.StoredElsewhere | bd/alf_queue_helpers.h:40-49 | a bulk store leaves the slots of other positions unchanged |
| CopyHelpers.StoredContiguous | bd/alf_queue_helpers.h:180-204 | a bulk that does not reach the end is one contiguous copy |
| CopyHelpers.StoredWrapped | bd/alf_queue_helpers.h:144-156 | a bulk that does is two copies |
| CopyHelpers.StoreMask | bd/alf_queue_helpers.h:40-49 | refines one masked store per element |
| CopyHelpers.LoadMask | bd/alf_queue_helpers.h:50-59 | refines one masked load per element |
| CopyHelpers.StoreMaskLess | bd/alf_queue_helpers.h:61-77 | same store, masking only when the bulk may wrap |
| CopyHelpers.LoadMaskLess | bd/alf_queue_helpers.h:78-94 | same load, masking only when the bulk may wrap |
| CopyHelpers.StoreMaskLess2 | bd/alf_queue_helpers.h:96-118 | same store, filling to the end and continuing at slot zero |
| CopyHelpers.LoadMaskLess2 | bd/alf_queue_helpers.h:119-141 | same load |
| CopyHelpers.StoreNoMask | bd/alf_queue_helpers.h:144-157 | same store with two unmasked loops |
| CopyHelpers.LoadNoMask | bd/alf_queue_helpers.h:158-171 | same load with two unmasked loops |
| CopyHelpers.StoreUnroll | bd/alf_queue_helpers.h:173-209 | same store, four at a time with a remainder |
| CopyHelpers.LoadUnroll | bd/alf_queue_helpers.h:210-246 | same load, four at a time with a remainder |
| CopyHelpers.StoreDuff | bd/alf_queue_helpers.h:249-282 | same store through Duff's device, for at least one element |
| CopyHelpers.LoadDuff | bd/alf_queue_helpers.h:283-314 | same load through Duff's device, for at least one element |
| CopyHelpers.StoreMemcpy | bd/alf_queue_helpers.h:316-328 | makes the one or two copies its comparison of masked ends selects |
| CopyHelpers.MemcpyStoresIff | bd/alf_queue_helpers.h:316-328 | those copies are the bulk store for all contents if and only if the bulk is smaller than the ring |
| CopyHelpers.LoadMemcpy | bd/alf_queue_helpers.h:329-341 | same load for a bulk smaller than the ring; a bulk of the whole ring loads nothing |
| PageCacheInvariant.ReclaimHeadKeeps | bd/valet_mempool.c:184-209 | one reclaim keeps the invariant and takes at most a frame, only from an entry with nothing outstanding |
| PageCacheInvariant.FreeKeepsFrames | bd/valet_mempool.c:98-111 | a frame in hand always fits back into the pool, and ownership is as before it was taken |
| PageCacheInvariant.InsertPageKeeps | bd/gpt.c:79-119 | inserting a new, frameless or complete page takes on one outstanding send and ends with a frame of its own |
| PageCacheInvariant.WriteKeeps | bd/gpt.c:229-303 | a write request of any length keeps the invariant |
| PageCacheInvariant.CopyKeepsOwed | bd/rdmabox.c:492-505 | copying any run of queued pages changes no page's number of outstanding sends |
| PageCacheInvariant.CopiesLastData | bd/rdmabox.c:498-503 | a page being copied has a frame, and what is copied is the last data written to it |
| PageCacheInvariant.CopyKeeps | bd/rdmabox.c:492-505 | any sender may copy any run of queued pages: the invariant is kept |
| PageCacheInvariant.PostKeepsIff | bd/rdmabox.c:527 | posting any copied buffer, in any order, keeps the invariant if and only if no page of it was copied earlier with other data into a buffer not yet posted, unless a later buffer or the sending list covers that page |
| PageCacheInvariant.NoOverlapIsHarmless | bd/rdmabox.c:527 | that condition holds whenever no earlier unposted buffer shares a page with it |
| PageCacheInvariant.LandKeeps | bd/rdmabox.c:408-439 | a write landing at a server keeps the invariant when it overtakes no earlier write to the same page |
| PageCacheInvariant.ListHasRoom | bd/rdmabox.c:1304-1309 | the reclaim list has room for an entry that is not on it |
| PageCacheInvariant.CompleteKeeps | bd/rdmabox.c:1296-1310 | a completion keeps the invariant |
| PageReclaim.CompletionLists | bd/rdmabox.c:1296-1310 | a completion gives each page of its write the presence bit and the mark, drops one outstanding send of it, and appends to the reclaim list, in order, exactly those of its pages that were not marked; nothing else changes |
| PageReclaim.AllocationTakes | bd/valet_mempool.c:148-206 | a free frame is taken first; without one, the frame of the first listed entry that is not UPDATING, and all entries before it leave the list; it spins if and only if there is neither |
| PageReclaim.WriteQueuesAll | bd/gpt.c:229-303 | a request queues each of its pages once more, sends nothing and sets no presence bit |
| PageReclaim.WriteSparesOthers | bd/gpt.c:86-91 | while there is a free frame for every page of a request no other page loses its frame |
| PageReclaim.MissLeaks | bd/valet_mempool.c:196-199 | a miss loses exactly one frame, that of the UPDATING entry it drops |
| PageReclaim.AllocationLeaks | bd/valet_mempool.c:148-165 | an allocation loses exactly the frames of the UPDATING entries it passes over |
| PageReclaim.LeakedForever | bd/rdmabox.c:1304-1309 | over every run a lost frame stays with its page, marked and unlisted |
| PageReclaim.FrameFate | bd/valet_mempool.c:148-206 | after every run a frame is free, or its page has a send outstanding, or is listed and not UPDATING, or the frame is lost |
| PageReclaim.AllocationAtRestIff | bd/valet_mempool.c:148-165 | once everything sent has completed a new page finds a frame if and only if some frame is not lost |
| PageReclaim.UsedUpForever | bd/valet_mempool.c:148-165 | a pool all of whose frames are lost stays so over every run, and no allocation ever succeeds again |
| PageReclaim.PoolUsedUp | bd/valet_mempool.c:196-199 | a run under all hypotheses after which everything sent has completed and no page outside the table can ever be written |
| PageCacheInvariant.StepKeepsInv | bd/rdmabox.c:1264-1329 | every step of the life cycle keeps the invariant |
| PageCacheTheorems.ReadAfterWrite | bd/gpt.c:310-361 | after any run a read of any page returns the last data written to it, from the frame or from the server, and nothing for a page never written |
| PageCacheTheorems.CountsAreExact | bd/gpt.c:91-100 | once a page's first write has completed its count is the number of its outstanding sends and UPDATING says whether that is positive |
| PageCacheTheorems.ReclaimIsSafe | bd/valet_mempool.c:196-206 | reclaim takes a frame only from a page with no outstanding send whose last data is at the server |
| PageCacheTheorems.ReclaimListBounded | bd/valet_mempool.c:75-96 | an entry is on the reclaim list at most once, marked and with a frame; the list is no longer than the pool and a completion always finds room |
| PageCacheTheorems.ReclaimListFitsRing | bd/valet_mempool.c:508-525 | with the configured pool the reclaim list stays collision-free on its non-power-of-two ring |
| PageCacheTheorems.SendingListFitsRing | bd/valet_mempool.c:49-57 | under its bound the sending list stays collision-free on its non-power-of-two ring |
| PageCacheTheorems.FramesAreConserved | bd/valet_mempool.c:98-165 | every frame is free or held by exactly one entry, none is lost, and curr_nr + used_nr = cap_nr with used_nr the number of holders |
| PageCacheTheorems.RewriteProtectedIff | bd/gpt.c:91-100 | a page rewritten with a send outstanding is still protected after that send completes if and only if its first write had completed before |
| PageCacheTheorems.LostUpdate | bd/gpt.c:91-100 | a run in which a rewrite before the first completion makes a read return data never written, while every other hypothesis holds |
| PageCacheTheorems.LostByPostOrder | bd/rdmabox.c:492-527 | a run in which two senders post in the other order than they copied and a read returns the older data after all sends have completed, while every other hypothesis holds |
| PageTable.GlobalPageTable.Reclaim | bd/valet_mempool.c:184-209 | is one reclaim step |
| PageTable.GlobalPageTable.Alloc | bd/valet_mempool.c:148-165 | pops a free frame or reclaims until one comes back |
| PageTable.GlobalPageTable.Free | bd/valet_mempool.c:98-111 | pushes a frame unless the pool is full |
| PageTable.GlobalPageTable.Insert | bd/gpt.c:79-119 | is the insertion step |
| PageTable.GlobalPageTable.Write | bd/gpt.c:229-303 | inserts all pages of a request, then copies and queues each |
| PageTable.GlobalPageTable.Gather | bd/rdmabox.c:492-505 | the buffer holds each page's frame contents, in order |
| PageTable.GlobalPageTable.Copy | bd/rdmabox.c:492-505 | is the copying step |
| PageTable.GlobalPageTable.Post | bd/rdmabox.c:408-439 | is the posting step |
| PageTable.GlobalPageTable.WriteDone | bd/rdmabox.c:1296-1310 | is the completion step |
| PageTable.GlobalPageTable.ReadLocal | bd/gpt.c:310-361 | hits if and only if the page has a frame, and then returns the last data written |
| SendPath.RemoteSender | bd/rdmabox.c:959-1029 | the pages sent are the pages queued, in order; every item sent is made of consecutive whole queued items, is one run of 1 to 128 pages, and could not absorb the next queued item; must_go never forces a send; the loop ends |
| SendPath.MergeIsUnique | bd/rdmabox.c:991-1005 | these conditions determine what is sent |
| SendPath.FindBorder | bd/rdmabox.c:700-708 | finds exactly the first page of the next swap space |
| SendPath.RequestWrite | bd/rdmabox.c:677-747 | one or two non-empty parts that concatenate to the item, each inside one swap space at the byte address of its first page, two if and only if the item crosses a border |
| SendPath.AddressesAgree | bd/rdmabox.c:627-656 | the address and the bit a read uses are those of the merged and split write |
| SendPath.AddressesDistinct | bd/rdmabox.c:415-431 | two written pages have the same address if and only if they are the same page |
| SendPath.SwapKeepsOnPage | bd/rdmabox.c:731-745 | sending the second half first does not reorder the writes of any page |
| SendPath.SendAll | bd/rdmabox.c:959-1029 | draining the list posts, for every page, exactly the queued writes in the queued order, all placed inside a swap space |
| Bitmap.OrBit | bd/rdmabox.c:2082-2085 | setting a digit changes no other digit |
| Bitmap.ClearBit | bd/rdmabox.c:2113-2116 | clearing a digit changes no other digit |
| Bitmap.PageBitmap.Set | bd/rdmabox.c:2082-2085 | adds one page to the set the words stand for |
| Bitmap.PageBitmap.Clear | bd/rdmabox.c:2113-2116 | removes one page |
| Bitmap.PageBitmap.Test | bd/rdmabox.c:2105-2112 | true if and only if the page is in the set |
| Bitmap.PageBitmap.GroupSet | bd/rdmabox.c:2087-2095 | adds exactly the pages of a byte range |
| Bitmap.PageBitmap.GroupClear | bd/rdmabox.c:2096-2104 | removes exactly the pages of a byte range |
| Bitmap.PageBitmap.Init | bd/rdmabox.c:2117-2120 | empties the set |
| Bitmap.PageBitmap.RecordCompletions | bd/rdmabox.c:1289 | after any completions the set has grown by exactly the pages completed |
| Bitmap.ReadBitSetIff | bd/rdmabox.c:627-656 | the bit a read tests is set if and only if some completed write to the block contained the page |
| Completion.Arriving | bd/rdmabox.c:1275-1285 | a completing context names the item and position it was posted for |
| Completion.PrimaryHeld | bd/rdmabox.c:506-512 | while a replica is in flight the primary whose buffer it sends from still belongs to the item and is not free |
| Completion.StepKeepsInv | bd/rdmabox.c:1264-1329 | every step keeps: each context is free or held by exactly the send it names |
| Completion.ContextsAreConserved | bd/rdmabox.c:71-96 | in every reachable state the pool holds no context twice and at most its capacity, and both ledgers balance |
| Completion.ReturnedExactlyOnce | bd/rdmabox.c:1311-1327 | each context has been returned as often as taken, or once less if it is out |
| Completion.FreedExactlyOnce | bd/rdmabox.c:1294-1312 | each item has been freed once per send started, or once less while it is being sent |
| Completion.LastCompletionReleases | bd/rdmabox.c:1291-1327 | a completion frees the item, and the primary context is free after it, if and only if every other replica has completed; what goes back to the pool goes there primary first |
| Completion.QuiescentIsWhole | bd/rdmabox.c:1264-1329 | when all replicas are posted and none is in flight, every context is back and every item freed |
| Starvation.StarvedIff | bd/rdmabox.c:480-488 | nothing but a new call can happen if and only if no context is free or in flight and no call has all it needs |
| Starvation.StarvedIsCrowded | bd/rdmabox.c:480-488 | then the pool is no larger than the waiting calls can hold while each is short of one |
| Starvation.StarvingRun | bd/rdmabox.c:480-488 | for every number of replicas and calls and every pool no larger than that, a run that ends so |
| Starvation.CanStarveIff | bd/rdmabox.c:480-488 | at most m concurrent calls with r replicas can starve if and only if the pool has at most m * (r - 1) contexts |
| Starvation.DriverPoolSuffices | bd/rdmabox.c:2058 | the pool the driver creates is large enough for one call on each processor |
| Starvation.StarvedForever | bd/rdmabox.c:480-488 | starved calls stay as they are over every run, and nothing is freed any more |
| Starvation.StepWorks | bd/rdmabox.c:480-537 | every step but a new call lowers what exactly one call has still to do |
| Starvation.CallsFinish | bd/rdmabox.c:480-537 | without new calls every schedule is finite |
| Starvation.SomeCallCanMove | bd/rdmabox.c:480-537 | with a larger pool something other than a new call can happen as long as anything is being sent, so such a schedule ends with every item freed |
| WriteContexts.WriteEngine.GetFree | bd/rdmabox.c:82-96 | pops the top context, or nothing from an empty pool |
| WriteContexts.WriteEngine.Release | bd/rdmabox.c:71-80 | clears a context and pushes it, given room |
| WriteContexts.WriteEngine.RdmaWrite | bd/rdmabox.c:480-537 | is a legal run: start the item, take a context per replica, post each |
| WriteContexts.WriteEngine.WriteDonePostwork | bd/rdmabox.c:1264-1329 | is the completion step for any arriving context, and no push overflows the pool |
| Daemon.AdvertisedIsFree | daemon/daemon.c:392-405 | the answer to a query is the number of free blocks, positive if and only if the next map finds one |
| Daemon.MapKeepsAccountsIff | daemon/daemon.c:445-480 | a map request keeps the accounts if and only if the advertised count was positive; otherwise the mapped count is one too high and nothing else changes |
| Daemon.MapFindsBlock | daemon/daemon.c:454-465 | with a positive count the first free block becomes the requester's, for its swap space and replica, and no other block changes |
| Daemon.DeleteNamed | daemon/daemon.c:544-564 | a delete naming a block frees exactly that block, which was the sender's, and keeps the accounts |
| Daemon.DeleteKeepsAccountsIff | daemon/daemon.c:544-564 | a delete message keeps the accounts if and only if it names a block; otherwise both counters are one too low and nothing else changes |
| Eviction.AppliedAt | daemon/daemon.c:627-638 | exactly the first k blocks of a kind are changed |
| Eviction.ZeroIffLast | daemon/daemon.c:648-657 | the scan ends at a stamp of 0 if and only if the last mapped block was never written |
| Eviction.OlderIsHidden | daemon/daemon.c:648-664 | a mapped block older than the one picked, or as old and before it, is hidden by a never-written block at or after it and before the pick |
| Eviction.PickIsOldestIff | daemon/daemon.c:648-664 | the scan picks an oldest mapped block if and only if every mapped block was written or the last mapped one was not |
| Eviction.PickMissesOldest | daemon/daemon.c:655-657 | a table on which it picks a newer block |
| Eviction.EvictOldestRemoves | daemon/daemon.c:646-674 | one pass removes exactly the picked mapped block |
| Eviction.EvictRemovesExactly | daemon/daemon.c:617-675 | do_evict(k) removes exactly k blocks or all there are, unmapped ones first, leaves the survivors untouched and keeps the accounts; the unmapped ones go in the order of the table |
| Eviction.EvictionOrder | daemon/daemon.c:646-680 | on any table, of two mapped blocks of which one is evicted and one stays, the evicted one is the one the repeated scan comes to first: the other is hidden behind a never-written block, or it is the older, or as old and the first in the table |
| Eviction.OldestGoIfWritten | daemon/daemon.c:646-680 | if every mapped block has been written, no evicted mapped block is newer than one that stays |
| Eviction.OldestGoIff | daemon/daemon.c:646-680 | that holds for evictions of every size if and only if no written mapped block stands behind a never-written one |
| Eviction.LastWrittenGoesLast | daemon/daemon.c:646-680 | a mapped block written later than all others is not evicted while another mapped block stays |
| Eviction.ExpandAllocatesExactly | daemon/daemon.c:1397-1420 | expansion allocates exactly its clamped size and touches no allocated block; the new blocks are the first empty ones, free and never written |
| Eviction.SessionSize | daemon/daemon.c:253-262 | start-up allocates 0 to 32 GB and leaves at least the eviction threshold free unless it allocates nothing |
| Eviction.SessionSizeIsLargest | daemon/daemon.c:253-263 | it is the largest size that fits the table and leaves 10 GB free, or 15 GB when more than 20 GB are found |
| Eviction.InitAccounted | daemon/daemon.c:241-271 | the table is accounted for at start-up and advertises what it allocated |
| Eviction.RunKeepsAccounts | daemon/daemon.c:445-675 | every run of well-formed messages keeps: size_gb counts allocated blocks, mapped_size mapped ones, mapped implies allocated, each connection's index lists exactly its blocks |
| Eviction.AnswersAreTrue | daemon/daemon.c:392-405 | after any such run a query's answer is the number of free blocks |
| DaemonSession.Session.constructor | daemon/daemon.c:241-271 | sets up the table for the free memory found |
| DaemonSession.Session.ReplyQuery | daemon/daemon.c:392-405 | returns the number of free blocks of an accounted table |
| DaemonSession.Session.PrepareSingleMr | daemon/daemon.c:445-480 | is the map step and returns the block's index |
| DaemonSession.Session.RecvDeleteRb | daemon/daemon.c:544-564 | is the delete step |
| DaemonSession.Session.FreeUnmapped | daemon/daemon.c:627-641 | frees the first k unmapped blocks and reports how many |
| DaemonSession.Session.FindOldest | daemon/daemon.c:648-664 | returns the scan's pick |
| DaemonSession.Session.DoEvict | daemon/daemon.c:617-675 | is the eviction step, for any k of at least 1 |
| DaemonSession.Session.Expand | daemon/daemon.c:1397-1420 | is the expansion step |
| AgreementInvariant.MapShape | bd/rdmabox.c:281-311 | a map takes a block that was free, leaves every other block as it was, and gives the client the server's key and address with an empty bitmap |
| AgreementInvariant.DeletedTable | daemon/daemon.c:544-564 | a delete message for one of the client's blocks is acceptable and removes that block only |
| AgreementInvariant.WriteRecorded | bd/rdmabox.c:1289 | a write through an intact record keeps the bitmap equal to the pages written |
| AgreementInvariant.StepKeepsInv | bd/rdmabox.c:1051-1099 | every step of client, servers and network keeps the invariant, which covers block numbers, keys, addresses, bitmaps and messages, also when evictions of one node overlap |
| AgreementInvariant.RunKeepsInv | bd/rdmabox.c:1051-1099 | so does every run |
| AgreementTheorems.GuardedAccessIsServed | bd/rdmabox.c:636-656 | after every run, when the guards let a read or a write for a swap space through, the block addressed is allocated and mapped for it at the server with no delete on its way, and key, address, index and bitmap are right if and only if no reset cleared that block by mistake |
| AgreementTheorems.GuardedAccessIsIntact | bd/rdmabox.c:415-431 | in every run without overlapping evictions of a node they are always right |
| AgreementTheorems.BlocksAreNotShared | bd/rdmabox.c:281-311 | no two swap spaces share a block |
| AgreementTheorems.ServedBlocksAreAccountedFor | bd/rdmabox.c:1217-1232 | a block a server keeps for this client is on the client's record, intact if and only if no reset cleared it, or its delete is in transit and the server waits for it |
| AgreementTheorems.EvictorsAreRetired | bd/rdmabox.c:1060-1062 | after an eviction without destination the node is never mapped again |
| AgreementTheorems.FinishTakesWriterIff | bd/rdmabox.c:601-612 | after every run, the last step of an eviction takes some swap space's permission to write if and only if the evicted one has been mapped on another node since, under the number of a block this node still serves for writing |
| AgreementTheorems.LossIff | bd/rdmabox.c:1147-1163 | an eviction message is lost exactly when it arrives between the sending of the last delete and the clearing of its record, or when a map reply overtakes it |
| AgreementTheorems.LostForever | daemon/daemon.c:666-674 | a server whose eviction message was lost waits for ever |
| AgreementTheorems.OverlapSplit | bd/rdmabox.c:1205-1211 | a message that overlaps leaves the thread stuck if and only if its send had completed and it had not run; otherwise its reset is going to clear the new block |
| AgreementTheorems.StuckIff | bd/rdmabox.c:1090-1091 | a thread gets stuck exactly by a message that arrives after the completion of its send and before it runs, and stays so |
| AgreementTheorems.StuckForever | bd/rdmabox.c:1090-1091 | over every run a stuck thread stays where it is, and its swap space, still mapped, is neither readable nor writable |
| AgreementTheorems.EvictionProceedsIff | bd/rdmabox.c:1066-1098 | an eviction under way, its search answered, can take its next step with every index in range if and only if its thread is not stuck |
| AgreementTheorems.ResetWipesIff | bd/rdmabox.c:577-593 | after every run, a reset clears the key of a block that goes on serving a mapped swap space if and only if the mark is not on the evicted block |
| AgreementTheorems.CleanIff | bd/rdmabox.c:1147-1163 | the mark leaves the evicted block exactly when an eviction message arrives between the sending of the delete and the reset |
| AgreementTheorems.SpoilIff | bd/rdmabox.c:577-593 | a node is spoiled exactly by a reset whose mark is on another block |
| AgreementTheorems.DoomedSpoils | bd/rdmabox.c:1090-1094 | a thread going to clear another block can move, and the only way out is that reset |
| AgreementTheorems.SpoiledForever | bd/rdmabox.c:577-593 | over every run the cleared block goes on serving at the server, without a key at the client |
| AgreementProgress.RefusedIff | bd/rdmabox.c:461-478 | after every run a mapped swap space is refused for reading if and only if its own eviction is between the stop of its writes and the clearing of its record, and for writing also if its block was marked INACTIVE by the end of another eviction |
| AgreementProgress.ThreadStepCounts | bd/rdmabox.c:1032-1100 | every step of the migration thread brings it closer to waiting again |
| AgreementProgress.EvictionEnds | bd/rdmabox.c:1032-1100 | an eviction once taken up is over after a bounded number of steps of its thread, whatever happens in between |
| AgreementProgress.SearchAsksAll | bd/rdmabox.c:1940-1946 | a block is given up only after every node usable when the search began has answered that it has no free block |
| AgreementProgress.RegisteredIff | daemon/daemon.c:543-563 | after every run a server has a memory registration for a block if and only if the block is mapped for the client |
| StaleFinish.SelectedIsBest | bd/rdmabox.c:1780-1877 | the node the runs map is the best of all usable nodes |
| StaleFinish.NothingServesIff | bd/rdmabox.c:1942-1946 | a search finds nothing if and only if every usable node answers 0 |
| StaleFinish.FollowsIsLegal | bd/rdmabox.c:1940-1946 | a run that maps the selected node and evicts the block the age scan picks is a run of the model |
| StaleFinish.StaleFinishStopsWriter | bd/rdmabox.c:1071-1098 | such a run, with a search that finds every other server full, after which a served swap space can be read and no longer written |
| OverlapRuns.OverlapLosesPages | bd/rdmabox.c:577-593 | such a run after which a swap space is served, may be read and written, and has lost its key: any page written to it is not recorded |
| OverlapRuns.OverlapHangsThread | bd/rdmabox.c:1090-1091 | such a run after which the migration thread is stuck |
| ClientTables.Client.MapReply | bd/rdmabox.c:281-311 | records exactly the first keyed block for the swap space, with its key, address and an empty bitmap |
| ClientTables.Client.GetCb | bd/rdmabox.c:382-406 | the place a request is sent to is the recorded one if and only if the swap space was mapped or the reply names a block; otherwise it is the selected node under the old block number, and nothing is recorded |
| ClientTables.Client.MapRequest | bd/rdmabox.c:1894-1932 | together with the server's half it is the mapping step |
| ClientTables.Client.FreezeEvicted | bd/rdmabox.c:1064-1066 | is the step that stops writes to the evicted block |
| ClientTables.Client.FinishEvicted | bd/rdmabox.c:1096 | is the last step of an eviction |
| ClientTables.Client.ResetMigrationInfo | bd/rdmabox.c:571-599 | clears key, address, bitmap and index of exactly the marked blocks, and the swap space's mapping |
| ClientTables.Client.ResetEvicted | bd/rdmabox.c:571-599 | with the marks the last eviction message left it is the reset step |
| NodeSelection.Probe | bd/rdmabox.c:1820-1826 | ends at the first free place going round from the draw |
| NodeSelection.NextPlace | bd/rdmabox.c:1816-1828 | the next place in order when there are few, otherwise the first one left going round from the draw |
| NodeSelection.QueryNodes | bd/rdmabox.c:1813-1850 | queries the candidates in the driver's order until the limit answered or all were asked, records the answers in order, and connects exactly the idle ones |
| NodeSelection.SortPairs | bd/rdmabox.c:1856-1868 | permutes the nodes into descending order of their free memory, the first of the best in front |
| NodeSelection.BestPrefix | bd/rdmabox.c:1856-1874 | the first n of the sorted answers are distinct and no worse than any other queried node |
| NodeSelection.AnsweredCount | bd/rdmabox.c:1813-1854 | as many nodes have answered as could serve, up to the limit |
| NodeSelection.BestOfAll | bd/rdmabox.c:1848-1874 | with no more serving nodes than the limit, no node left out has more free memory than one chosen |
| NodeSelection.FindTheBestNode | bd/rdmabox.c:1780-1877 | for every random stream and all replies: asks until the limit has answered or all were asked; fails if and only if fewer usable nodes than replicas have free memory, else returns distinct usable nodes with the most free memory of those queried, best first, and of all serving nodes if they are no more than the limit; the first chosen is the first of the best to answer |

## Left out

- Memory ordering: the queue model is sequentially consistent; barriers and cache alignment are not modelled.
- AlfQueue.ArrayQueue.ScDequeue: on a ring that is not a power of two it covers a want of one element, the only one the program uses there, because the unrolled load reads neighbouring slots and not masked ones.
- AlfQueue.ArrayQueue.SpEnqueue: on a ring that is not a power of two it covers single elements within the collision-free window only, because beyond that the ring does overwrite.
- Atomicity: `write_to_brd` with its insertions, the copy of one buffer in `rdma_write`, its post, and `write_done_postwork` are single steps in the page life cycle; races inside them are not modelled.
- The page life cycle uses one replica and no eviction; contexts and replicas are in `Completion`.
- Page table removal and teardown (`gpt_free_entry`, `gpt_remove_page`, `gpt_free_pages`).
- The `simple` store and load helpers, which touch `ring[size]` and are not selected.
- Failing RDMA posts, and the second half that is lost when its send fails. An item put back because its block is READONLY simply stays queued in the page life cycle.
- SendPath.SendAll: one sender draining the list; several are in the page life cycle, which does not use the list's order.
- Items in `SendPath` are values: the in-place reuse of one item's batch list by a merge is modelled as concatenation.
- WriteContexts.WriteEngine.RdmaWrite: covers a call that finds enough free contexts; a call that waits for one is covered by the interleavings of `Completion`, and `Starvation` says when it can wait for good.
- The successful branch of a migration, which unmaps the swap space it has just moved.
- PageCache.SendingFits: bounds the pages queued or held by senders, which is more than the program needs, since one entry of its list stands for a whole request and a held item has left the list.
- AgreementTheorems.EvictorsAreRetired: a search, the map request and its reply are one step, so the late reply to a request sent before the eviction began, which puts the node back into CB_MAPPED, is not covered.
- A map request that finds no block because another client took the last one: the server's counters are then wrong (`Daemon.MapKeepsAccountsIff`), and the client goes on with the swap space's old block number, or -1 (`ClientTables.Client.GetCb`). Mapping in `Agreement` presupposes a free block.
- The sending and the arrival of an eviction message are one step in `Agreement`, as are a write and its completion; a search that finds a destination ends the modelled runs.
- `valet_wait_in_flight_requests` and `valet_disconnect_handler`.
- DaemonSession.Session.DoEvict: each client is taken to answer with the delete of the block it was told about, with no mapping in between.
- The floating-point filter of free memory: its result is an arbitrary input of `Expand`; failing allocations are not modelled.
- NodeSelection.FindTheBestNode: the connection set-up and the messages are replaced by a list of replies; a node's reply is taken at the time it is asked.
- Pool resizing, which is disabled in the driver.
- Disk backup, configfs, block device registration, RDMA connection set-up, DMA mapping, portal parsing, `nbdxadm` and the shell scripts.
- 64-bit wrap-around of byte addresses and page indices, and the sign bit of the bitmap's words.

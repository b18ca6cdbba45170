# Verified models of the device's hardware libraries

Dafny models of the parts of this device tree whose correctness is hard to see
by reading: the pmem heap and the allocators built on it, frame posting, the
lock word of graphics buffers, the radio daemon's event loop and its
request and wake-lock bookkeeping, the in-place picture crop, and several
smaller codecs and calculations.

`dafny verify dfyconfig.toml` checks everything.

| file | component |
|---|---|
| `ChunkSpec`, `HeapNodes`, `BestFitHeap`, `HeapTheory`, `HeapRuns` | best-fit heap: linked nodes, the operations on them, the chunk sequences they stand for, whole runs |
| `PmemUserspace`, `PowerOfTwo` | the two pmem allocators |
| `DisplayQueue`, `FramePosting` | queue and protocol between the posting and the display thread |
| `LockWord` | reader/writer word changed by compare-and-swap |
| `TimerSpec`, `EventLoop`, `WatchTable` | timers, circular event lists, watched descriptors |
| `RequestList`, `RequestRuns`, `WakeLock` | pending radio requests, their answers, the wake lock |
| `Parcels`, `CdmaSms`, `BroadcastConfig` | marshalling of radio messages |
| `CropYuv` | cropping a picture inside its own buffer |
| `EepromFile` | a file stored in a serial EEPROM |
| `Copybit` | blit rectangles and batches |
| `BufferSizes` | two calculations of video buffer sizes |
| `Words` | machine number types |

Objects that the C++ changes in place are classes here, each method tied to a
function of the old state; threads are state machines whose steps are the
critical sections or single shared accesses, and the theorems are about every
run of those steps. System calls (`open`, `mmap`, `ioctl`, clocks, `select`)
appear as parameters.

## What the code does that one might not expect

Each of these is proved, with the exact condition where there is one.

- A heap request above 2^32 - 32 bytes wraps to zero units and damages the heap
  unless no chunk is free (`WrappedRequest`). When the best fit lies at 2 GiB or
  above, its offset is a negative number, the caller takes it for a failure, and
  the range is lost (`AllocMeaning`, `RequestKeeps`, `LostRangeExample`).
- A pmem request for no bytes reserves nothing; when its mapping then fails, the
  roll-back releases whoever holds offset 0, or aborts (`ZeroRequest`).
- When the pmem size cannot be queried the code announces a "limp mode" and maps
  8 MiB, but then refuses every request, because the error is not cleared
  (`InitPmemArea`). An initialisation failure of exactly -1 is retried. Freeing
  a pmem buffer always answers 0 (`FreePmemBuffer`).
- The comment at libgralloc/framebuffer.cpp:201-202 says the previous buffer is
  unlocked after the display has taken the new one. From the second post on, the
  n-th post is sure to do that in every run exactly when n is odd
  (`ReleasesLateWhenOdd`); for every even n there is a run in which it unlocks a
  buffer still on screen (`EvenPostsReleaseEarly`).
- 2^30 locks on one handle overflow the count into the mapped bit
  (`OverflowExample`); below that limit the flags are safe, and only below it
  (`CountLimit`).
- A radio answer goes to another connection than its request exactly when a peer
  was accepted between unlinking the request and writing the answer
  (`AnswerOnOwnConnection`). The peer's descriptor is the command descriptor
  before anyone has checked who the peer is, so the answer can reach a peer that
  is then turned away (`StaleAnswerExample`, `UntrustedAnswerExample`).
- A wake event that has taken the wake lock but not yet scheduled its timer loses
  the lock exactly to another event's error exit or to the previous event's timer
  (`DroppedMidway`; `DroppedByErrorExample`, `DroppedByTimerExample`), and then
  ends with its timer queued and the lock free (`UnprotectedFinish`).
- The in-place crop changes bytes outside the cropped picture, for some image,
  exactly when in one of the planes the row after the last one would land ahead of
  its own source (`PictureSparesRestIff`, `SpoilingLayoutExample`). When it lands on its own source the
  code copies that row onto itself.
- The EEPROM reader takes any nonzero answer of a block transfer for a failure,
  and the kernel answers with the number of messages; whether the header could be
  read is not looked at (`ContentRead`).
- A stretch scales its source origin too, and under rotation adds the origins
  swapped. With a destination inside its image, everything the call submits for
  clips that meet it reads inside the source exactly when the source is empty or
  both axes reach no further than the source image (`StretchInsideIff`,
  `RotatedStretchExample`, `ScaledOriginExample`). For a destination that hangs
  over its image that is enough but not needed (`FitsInside`,
  `HangingStretchExample`); what is needed there depends on the visible part
  alone (`SubmitsInsideIff`).
- A clip beside the destination is not skipped, because its negative width is
  compared as an unsigned number (`ClipMeetsIff`, `SkippedIs`,
  `DisjointClipExample`).
- The watch table stays consistent exactly when a descriptor is not watched twice
  and a watched event is not prepared again (`EventAdd`, `EventSet`).

## Model

| member | source | states |
|---|---|---|
| HeapNodes.ChunkList.InsertAfter | libgralloc/allocator.h:47-53 | the list stays doubly linked and holds the old nodes with the new one right behind the given one |
| HeapNodes.ChunkList.InsertBefore | libgralloc/allocator.h:55-61 | the same, in front of the given node |
| HeapNodes.ChunkList.InsertHead | libgralloc/allocator.h:63-73 | the new node comes first, also in an empty list |
| HeapNodes.ChunkList.InsertTail | libgralloc/allocator.h:75-84 | the new node comes last, also in an empty list |
| HeapNodes.ChunkList.Remove | libgralloc/allocator.h:86-92 | exactly that node is gone and both neighbours and both list ends are right |
| ChunkSpec.Padding | libgralloc/allocator.cpp:90 | the least padding (below one page) that makes a unit page aligned |
| ChunkSpec.Units | libgralloc/allocator.cpp:84 | bytes rounded up to 32-byte units, when the 32-bit addition does not wrap |
| BestFitHeap.SimpleBestFitAllocator.SetSize | libgralloc/allocator.cpp:43-52 | only the first call takes effect: page-rounded size, one free chunk in front |
| BestFitHeap.SimpleBestFitAllocator.FindBestFit | libgralloc/allocator.cpp:85-102 | despite the early stop the scan finds the first smallest free chunk that holds the padded request, or none fits |
| BestFitHeap.SimpleBestFitAllocator.Split | libgralloc/allocator.cpp:105-125 | the linked nodes now stand for the one-shot allocation on the chunk sequence |
| BestFitHeap.SplitsBuildAllocAt | libgralloc/allocator.cpp:105-125 | marking, splitting in front and splitting behind together replace one chunk by padding, request and tail |
| BestFitHeap.SimpleBestFitAllocator.Alloc | libgralloc/allocator.cpp:79-129 | best-fit chunk carved and its signed byte offset returned, or nothing changed and -ENOMEM |
| BestFitHeap.SimpleBestFitAllocator.Allocate | libgralloc/allocator.cpp:60-66 | the same once a size is set, else -EINVAL |
| BestFitHeap.SimpleBestFitAllocator.MergeFreed | libgralloc/allocator.cpp:141-154 | the pointer loop computes the release function on chunk sequences |
| BestFitHeap.SimpleBestFitAllocator.Fold | libgralloc/allocator.cpp:145-153 | one turn of the merge loop on nodes is one turn on the sequence |
| BestFitHeap.SimpleBestFitAllocator.Dealloc | libgralloc/allocator.cpp:131-165 | the first chunk at that offset is released, a free one aborts, an unknown offset answers -ENOENT |
| BestFitHeap.SimpleBestFitAllocator.Deallocate | libgralloc/allocator.cpp:68-77 | the same once a size is set, else -EINVAL |
| HeapTheory.TilesOrdered | libgralloc/allocator.cpp:79-165 | no overlaps: of two chunks of a tiling the earlier ends before the later starts |
| HeapTheory.TilesCover | libgralloc/allocator.cpp:79-165 | no gaps: every unit of the heap lies in a chunk |
| HeapTheory.SetSizeInv | libgralloc/allocator.cpp:43-52 | a freshly sized nonzero heap satisfies the heap invariant |
| HeapTheory.AllocKeeps | libgralloc/allocator.cpp:104-127 | an allocation keeps tiling, coalescing, alignment and the 28-bit sizes, and adds exactly one aligned live chunk inside the chosen one |
| HeapTheory.DeallocIsFused | libgralloc/allocator.cpp:141-160 | the merge loop fuses the freed chunk with exactly its free neighbours |
| HeapTheory.DeallocKeeps | libgralloc/allocator.cpp:133-161 | a release keeps the heap invariant, removes exactly one live chunk and never trips the final assertion |
| HeapTheory.AllocThenRelease | libgralloc/allocator.cpp:104-161 | releasing the chunk just allocated restores the previous chunk sequence exactly |
| HeapTheory.NothingLive | libgralloc/allocator.cpp:141-154 | with nothing allocated the heap is one free chunk |
| HeapTheory.ReleaseAllInAnyOrder | libgralloc/allocator.cpp:131-165 | releasing all live chunks in any order leaves one free chunk |
| HeapRuns.AllocMeaning | libgralloc/allocator.cpp:79-129 | success iff some free chunk fits; the range is page aligned, encloses the request, lies in the heap and is disjoint from all live ones; the answer is negative iff nothing fits or the best fit lies at 2 GiB or above, which no heap up to 2 GiB has |
| HeapRuns.FitsIsRoom | libgralloc/allocator.cpp:90-93 | the fit test with its padding asks whether a free chunk has room from some page boundary on |
| HeapRuns.BestFitMeaning | libgralloc/allocator.cpp:79-129 | the range comes from the first smallest chunk with such room, at its first page boundary; without one nothing changes and the answer is -ENOMEM |
| HeapRuns.HighIsNegative | libgralloc/allocator.cpp:79-129 | the best fit of the heap before the call decides the sign of the answer |
| HeapRuns.DeallocMeaning | libgralloc/allocator.cpp:131-165 | a live offset frees exactly that chunk; any other changes nothing, and aborts iff a free chunk starts there |
| HeapRuns.RunKeepsHeap | libgralloc/allocator.cpp:43-165 | every run of allocations and releases keeps tiling, coalescing and alignment |
| HeapRuns.RunEndsWhole | libgralloc/allocator.cpp:43-165 | any run that ends with nothing allocated ends with the initial heap |
| HeapRuns.WrappedRequest | libgralloc/allocator.cpp:84 | the invariant survives iff the request is at most 2^32 - 32 bytes or no chunk is free for zero units |
| HeapRuns.WrappedRequestExample | libgralloc/allocator.cpp:84-127 | a request of 2^32 - 1 bytes "succeeds" on a one-page heap with an empty chunk |
| HeapRuns.LostRangeExample | libgralloc/pmemalloc.cpp:152-156 | a page reserved just above 2 GiB and answered with -2^31 |
| PmemUserspace.PmemUserspaceAllocator.InitPmemAreaLocked | libgralloc/pmemalloc.cpp:83-118 | which heap, descriptor, mapping and error each failure pattern leaves |
| PmemUserspace.PmemUserspaceAllocator.InitPmemArea | libgralloc/pmemalloc.cpp:121-142 | succeeds iff already mapped, or opened, mapped and sized now; failures other than -1 stick |
| PmemUserspace.PmemUserspaceAllocator.AllocPmemBuffer | libgralloc/pmemalloc.cpp:145-194 | grants or fails as the specification on chunks and memory says, also on the call that initialises the area; a granted buffer lies in the heap, and the heap in the master mapping unless an earlier attempt sized it and could not map it |
| PmemUserspace.PmemUserspaceAllocator.GrantBuffer | libgralloc/pmemalloc.cpp:151-190 | reserve, connect, map, zero; or roll back, or abort in the heap; a granted buffer lies in the heap |
| PmemUserspace.RequestSucceeds | libgralloc/pmemalloc.cpp:151-190 | a request is granted iff a chunk fits whose offset is no negative number, the device opens, and connecting and mapping do not fail; a positive answer to connecting skips mapping; the answer is that of connecting or mapping; otherwise it fails with that error |
| PmemUserspace.PmemUserspaceAllocator.FreePmemBuffer | libgralloc/pmemalloc.cpp:197-214 | a range is released only after a successful unmap; the answer is always 0 |
| PmemUserspace.RollbackRestores | libgralloc/pmemalloc.cpp:174-180 | whatever fails after the reservation, the chunk list is exactly as before |
| PmemUserspace.RequestKeeps | libgralloc/pmemalloc.cpp:145-194 | a granted buffer is new, inside the heap, zeroed, and changes no byte of another one; a failed request changes no memory, and changes the chunks iff the best fit lies at 2 GiB or above |
| PmemUserspace.ZeroRequest | libgralloc/pmemalloc.cpp:151-180 | a zero-byte request is granted at offset 0 and reserves nothing; when its mapping fails, the live chunk at offset 0 is released, or a free one aborts |
| PmemUserspace.GiveBackKeeps | libgralloc/pmemalloc.cpp:197-214 | chunks change iff descriptor and unmap were good, and no other buffer's chunk goes |
| PmemUserspace.HeldApart | libgralloc/pmemalloc.cpp:145-214 | two held buffers occupy disjoint byte ranges |
| PmemUserspace.PoolRun | libgralloc/pmemalloc.cpp:145-214 | so in every run with arbitrary system-call results |
| PowerOfTwo.Clp2IsLeast | libgralloc/pmemalloc.cpp:251-259 | the result is the least power of two not below x iff 1 <= x <= 2^31 |
| PowerOfTwo.Clp2Minimal | libgralloc/pmemalloc.cpp:251-259 | no power of two lies between x and the result |
| PowerOfTwo.Clp2Idempotent | libgralloc/pmemalloc.cpp:251-259 | rounding twice is rounding once, for every x |
| PowerOfTwo.PmemKernelAllocator.AllocPmemBuffer | libgralloc/pmemalloc.cpp:262-301 | maps the rounded length and zeroes every byte of it, or fails and maps nothing |
| PowerOfTwo.PmemKernelAllocator.FreePmemBuffer | libgralloc/pmemalloc.cpp:304-319 | unmaps the rounded length |
| PowerOfTwo.AllocThenFree | libgralloc/pmemalloc.cpp:262-319 | freeing with the requested or with the rounded size unmaps exactly what was mapped |
| DisplayQueue.Queue.Push | libgralloc/gralloc_priv.h:61-75 | the item joins the back of the queue's contents |
| DisplayQueue.Queue.Pop | libgralloc/gralloc_priv.h:76-88 | the first item goes; an empty queue is left alone |
| DisplayQueue.Queue.GetHeadValue | libgralloc/gralloc_priv.h:89-96 | the first item, or the dummy |
| DisplayQueue.Queue.IsEmpty | libgralloc/gralloc_priv.h:98-101 | true iff there are no contents |
| FramePosting.StepKeepsPipeline | libgralloc/framebuffer.cpp:105-224 | every step of either thread keeps posted = shown + in hand + queued, with alternating slots |
| FramePosting.StepKeepsSlots | libgralloc/framebuffer.cpp:105-224 | every step keeps what the availability flags say about the display thread's lag |
| FramePosting.RunInv | libgralloc/framebuffer.cpp:105-224 | both hold in every interleaving from the state set up at 459-466 |
| FramePosting.InFlightBounded | libgralloc/framebuffer.cpp:183-217 | at most two frames in flight, at most one between posts, none after the third, fifth, ... post |
| FramePosting.ShownInPostOrder | libgralloc/framebuffer.cpp:111-148 | what was shown is a prefix of what was posted; the display thread never reads an empty queue |
| FramePosting.PostedBuffers | libgralloc/framebuffer.cpp:152-199 | in every run the frames queued are exactly the buffers handed to the posts, in call order, but for a post that has not reached its push |
| FramePosting.ShownIsPosted | libgralloc/framebuffer.cpp:111-148 | so what was shown is a prefix of what the callers posted |
| FramePosting.SleepsWhenDrained | libgralloc/framebuffer.cpp:111-148 | the display thread sleeps only when everything queued was shown and given back |
| FramePosting.OddPostsReleaseLate | libgralloc/framebuffer.cpp:201-213 | in every run the third, fifth, ... post unlocks the previous buffer only when all posted frames are on screen |
| FramePosting.EvenPostsReleaseEarly | libgralloc/framebuffer.cpp:135-147 | for every even n a run in which the n-th post goes on to unlock a buffer still on screen |
| FramePosting.ReleasesLateWhenOdd | libgralloc/framebuffer.cpp:201-213 | from the second post on, the n-th post is sure to wait for its frame in every run iff n is odd |
| FramePosting.BlockedPosterProgress | libgralloc/framebuffer.cpp:205-210 | while the poster sleeps the display thread has an enabled step that brings the wake-up closer |
| FramePosting.BlockedPosterWakes | libgralloc/framebuffer.cpp:135-147 | and wakes it within six steps |
| FramePosting.PushFrame | libgralloc/framebuffer.cpp:194-199 | pushing on the linked queue is the Push action of the runs |
| FramePosting.TakeFrame | libgralloc/framebuffer.cpp:119-121 | reading and popping the head of the linked queue is the Look or Rouse action |
| LockWord.CountLimit | libgralloc/gralloc_priv.h:221-225 | adding a reader touches only the count iff the count is below its maximum |
| LockWord.StepKeepsInv | libgralloc/mapper.cpp:216-330 | one shared access of any thread keeps the invariant of all threads, and never clears the mapped bit |
| LockWord.RunInv | libgralloc/mapper.cpp:216-330 | so every interleaving does |
| LockWord.LockWordMeaning | libgralloc/mapper.cpp:216-277 | the low bits count the holders, a write lock has exactly one holder who owns it, the buffer is mapped at most once |
| LockWord.CallStarts | libgralloc/mapper.cpp:203-217 | a call starts with what the caller asked for and touches nothing shared |
| LockWord.LockDecides | libgralloc/mapper.cpp:217-234 | in every run a lock is refused as busy iff somebody holds the buffer and the request or the held lock is for writing |
| LockWord.LockTakes | libgralloc/mapper.cpp:236-245 | it is taken iff the word did not change meanwhile, and then the thread is one more holder, for writing iff it asked to; else it starts over |
| LockWord.LockReturns | libgralloc/mapper.cpp:247-261 | a writer becomes the owner, and only a CPU lock on an unmapped buffer goes on to map |
| LockWord.MapDecides | libgralloc/mapper.cpp:260-275 | an unmapped buffer is mapped iff the attempt works, a mapped one is left alone, and the lock answers success in exactly those two cases |
| LockWord.UnlockDecides | libgralloc/mapper.cpp:307-328 | an unlock gives up one hold iff the word did not change meanwhile, a write lock with its owner; else it starts over |
| LockWord.MappedIsStable | libgralloc/mapper.cpp:260-275 | a mapped word stays mapped |
| LockWord.CpuLockMaps | libgralloc/mapper.cpp:260-277 | after a lock for the CPU that succeeded the word is mapped, for the rest of the run |
| LockWord.UnlockSucceeds | libgralloc/mapper.cpp:307-330 | a holder's unlock never answers "not locked", and a writer's never retries |
| LockWord.OverflowExample | libgralloc/mapper.cpp:241 | one lock past the maximum reads as mapped and unlocked |
| TimerSpec.Add | libril/ril_event.cpp:303 | the sum of two times, normalised when both are |
| TimerSpec.Sub | libril/ril_event.cpp:236 | the difference, normalised when both are |
| TimerSpec.Before | libril/ril_event.cpp:306-309 | the position of the first timer that is not earlier |
| TimerSpec.InsertSorted | libril/ril_event.cpp:305-311 | inserting there keeps the list sorted |
| TimerSpec.ExpiredIsPrefix | libril/ril_event.cpp:173-181 | in a sorted list exactly the prefix that is collected has expired |
| TimerSpec.TimerRun | libril/ril_event.cpp:162-327 | in every run of additions, deletions, passes and single callbacks, in any order, each added timer is in exactly one of listed, pending, fired, deleted, the list is sorted, and nothing is collected early |
| TimerSpec.FiredOnce | libril/ril_event.cpp:206-217 | no timer fires twice |
| TimerSpec.PassCollectsExpired | libril/ril_event.cpp:162-184 | a pass collects exactly the expired timers, in deadline order |
| EventLoop.InitList | libril/ril_event.cpp:108-114 | a sentinel alone is an empty circular list |
| EventLoop.AddToList | libril/ril_event.cpp:116-123 | the circular list gains the event in front of the given node |
| EventLoop.Unlink | libril/ril_event.cpp:132-135 | the circular list loses exactly that event, whose pointers become null |
| EventLoop.EventLists.TimerAdd | libril/ril_event.cpp:290-316 | the event enters the timer list at its sorted place with its deadline; without a delay nothing happens |
| EventLoop.TimerQueue.FindPlace | libril/ril_event.cpp:298-309 | the pointer walk finds that place |
| EventLoop.TimerQueue.Insert | libril/ril_event.cpp:305-311 | the sorted list gains the event at that place |
| EventLoop.EventLists.TimerDelete | libril/ril_event.cpp:319-327 | the event leaves whichever list it is on; on none, false |
| EventLoop.EventLists.ProcessTimeouts | libril/ril_event.cpp:162-184 | the expired prefix moves to the end of the pending list in order |
| EventLoop.TimerQueue.CalcNextTimeout | libril/ril_event.cpp:219-242 | -1 without timers, else the least of max(0, deadline - now) over all of them, normalised |
| EventLoop.EventLists.FirePending | libril/ril_event.cpp:206-217 | everything pending fires once, oldest first, while each callback may add a timer, also the event just fired; nothing is left pending and the timers are those before plus the added ones, each at its sorted place |
| EventLoop.EventLists.FireNext | libril/ril_event.cpp:211-214 | the oldest pending event is unlinked before its callback |
| EventLoop.AddRefines | libril/ril_event.cpp:290-316 | what the list operation promises is the AddTimer action of the runs |
| EventLoop.DeleteRefines | libril/ril_event.cpp:319-327 | likewise for DeleteTimer |
| EventLoop.PassRefines | libril/ril_event.cpp:162-184 | likewise for Pass |
| EventLoop.FireRefines | libril/ril_event.cpp:211-214 | likewise for FireNext |
| WatchTable.Watches.WatchedExactly | libril/ril_event.cpp:140-204 | the descriptor set is exactly the watched descriptors, none watched twice |
| WatchTable.Watches.EventSet | libril/ril_event.cpp:256-266 | the event is reset and unwatched; the table stays consistent iff it was not watched |
| WatchTable.Watches.EventAdd | libril/ril_event.cpp:269-287 | first free slot, descriptor and bound updated; a full table drops the event; the table stays consistent iff it was full or nobody watched the descriptor |
| WatchTable.Watches.RemoveWatch | libril/ril_event.cpp:140-160 | slot freed, descriptor forgotten, bound again one more than the largest |
| WatchTable.Watches.LargestFd | libril/ril_event.cpp:148-156 | the scan yields the largest watched descriptor |
| WatchTable.Watches.EventDel | libril/ril_event.cpp:330-344 | the same by the event's own index; an unwatched event is left alone |
| WatchTable.Watches.ProcessReadReadies | libril/ril_event.cpp:186-204 | a slot is emptied iff it held a ready event that is not persistent, every other slot is unchanged, the descriptors of those slots and no others are forgotten, and the ready events join the pending list |
| WatchTable.ReadyIn | libril/ril_event.cpp:191-193 | the events queued are those of a slot whose descriptor is ready |
| WatchTable.ReadyOrder | libril/ril_event.cpp:191-193 | in slot order, so each once |
| WatchTable.KeptMeans | libril/ril_event.cpp:194-196 | in the table that the loop turn leaves too, exactly the ready events that are not persistent are gone |
| WatchTable.Watches.LoopTurn | libril/ril_event.cpp:391-396 | a turn of the loop fires the expired timers in deadline order and then the ready events in slot order, each once, and leaves what the next turn needs: nothing pending, and watched events on no list |
| WatchTable.AllDone | libril/ril_event.cpp:191 | stopping after as many events as were ready misses none |
| RequestList.PendingRequests.Push | libril/ril.cpp:355-362 | a request goes to the front, uncancelled |
| RequestList.PendingRequests.CheckAndDequeue | libril/ril.cpp:2655-2680 | unlinks exactly that object, found iff it was listed |
| RequestList.PendingRequests.OnCommandsSocketClosed | libril/ril.cpp:2152-2172 | marks every listed request and changes nothing else |
| RequestRuns.RunInv | libril/ril.cpp:2152-2328 | every run keeps the link between requests, marks, descriptors and connections, and each request in at most one place |
| RequestRuns.AnsweredOnce | libril/ril.cpp:2683-2745 | no request is answered twice |
| RequestRuns.RequestTracked | libril/ril.cpp:2683-2745 | from its command on, while the connection stays open, a request waits, is being answered or was answered there |
| RequestRuns.CompletedIsAnswered | libril/ril.cpp:2683-2745 | so once it neither waits nor is being answered, exactly one answer with its id and token was written, on its connection |
| RequestRuns.CancelledUnanswered | libril/ril.cpp:2690-2744 | a request found cancelled at its completion gets no answer in the rest of the run |
| RequestRuns.UnlinkTakes | libril/ril.cpp:2655-2713 | a completion takes exactly its request off the pending ones and goes on with it iff it is not cancelled |
| RequestRuns.CaptureReads | libril/ril.cpp:1212-1218 | it reads the descriptor current then, and ends without an answer when there is none |
| RequestRuns.SendWrites | libril/ril.cpp:1230-1248 | it ends with one answer for that request iff the descriptor read is still the command descriptor |
| RequestRuns.PendingIsCurrent | libril/ril.cpp:2198-2217 | pending and not cancelled implies the request's connection is open, or just being closed |
| RequestRuns.AnswerOnOwnConnection | libril/ril.cpp:2713-2741 | an answer reaches its own connection iff no peer, trusted or not, was accepted between unlinking and writing |
| RequestRuns.UninterruptedAnswers | libril/ril.cpp:2683-2745 | with completions not interrupted by an accept every answer does, and that connection was trusted |
| RequestRuns.StaleAnswerExample | libril/ril.cpp:2683-2745 | a run in which an answer goes to the next trusted connection |
| RequestRuns.UntrustedAnswerExample | libril/ril.cpp:2265-2310 | a run in which it goes to a peer that is then turned away |
| WakeLock.RunInv | libril/ril.cpp:2467-2922 | in every run uncancelled wake timers are exactly the remembered one, due one timeout after the latest wake event |
| WakeLock.HeldHasOneTimer | libril/ril.cpp:2874-2883 | a held lock with no wake event midway has exactly one uncancelled queued timer, and firing it drops the lock |
| WakeLock.DropIs | libril/ril.cpp:2762-2892 | a step drops a held lock iff it is an error exit or fires the remembered timer |
| WakeLock.HeldIs | libril/ril.cpp:2762-2892 | after a step the lock is held iff a wake event just took it, or it was held and the step is none of those |
| WakeLock.FinishSchedules | libril/ril.cpp:2874-2883 | a wake event that ends well queues one timer due a second later, the only one that will still drop the lock |
| WakeLock.QueueChanges | libril/ril.cpp:2897-2935 | the other steps add or remove the one callback they are about |
| WakeLock.NoEarlyDrop | libril/ril.cpp:2762-2771 | the lock goes only by an error exit or more than a timeout after the latest wake event |
| WakeLock.DroppedMidway | libril/ril.cpp:2799-2892 | while wake events are midway, a step leaves one of them without the lock iff it is another one's error exit or fires the previous timer |
| WakeLock.UnprotectedFinish | libril/ril.cpp:2874-2883 | such an event ends with its timer queued and the lock free |
| WakeLock.DroppedByTimerExample | libril/ril.cpp:2762-2771 | a reachable loss to the timer |
| WakeLock.DroppedByErrorExample | libril/ril.cpp:2888-2891 | a reachable loss to the error exit |
| Parcels.ReadBytesBack | libril/ril.cpp:879-883 | reading bytes one at a time returns those written |
| CdmaSms.ResponseCdmaSms | libril/ril.cpp:2077-2123 | a missing response or one of the wrong length is rejected and writes nothing; otherwise the loops append exactly the encoding of the message |
| CdmaSms.DispatchCdmaSms | libril/ril.cpp:844-911 | the loops decode exactly what the decoder says, with the status of the last read only |
| CdmaSms.RoundTrip | libril/ril.cpp:844-911 | decoding an encoded message returns every field and every array entry within the stated count, and zero past it |
| CdmaSms.TruncatedRejected | libril/ril.cpp:844-911 | a message that lost any number of items at its end is rejected, although only the status of the last read is looked at |
| BroadcastConfig.ResponseBrSmsCnf | libril/ril.cpp:2029-2075 | the loop appends the count and every entry |
| BroadcastConfig.DispatchBrSmsCnf | libril/ril.cpp:975-1076 | the loop decodes count and entries |
| BroadcastConfig.RoundTrip | libril/ril.cpp:975-1076 | decoding an encoded list of any length returns it, for GSM and CDMA entries |
| BroadcastConfig.DecodesComplete | libril/ril.cpp:975-1076 | any message is accepted iff its count and all the numbers it announces are there, and entry i is the i-th group behind the count |
| CropYuv.CropPlane | libcamera/QualcommCameraHardware.cpp:3935-3971 | every copied destination row holds the original source row, and nothing outside the destination changes |
| CropYuv.MoveUpward | libcamera/QualcommCameraHardware.cpp:3955-3959 | the ascending rows are right and spare the sources still needed |
| CropYuv.SwitchRow | libcamera/QualcommCameraHardware.cpp:3952-3953 | row i's destination is ahead of its source iff i is at most the computed row |
| CropYuv.CropYuv420 | libcamera/QualcommCameraHardware.cpp:3892-4002 | row r, column k of the new luma is the old byte at row y0 + r, column x0 + k, for the even x0 and y0 that centre the window, and the chroma rows likewise from row y0 / 2, with the offsets of the encoder or of a tight layout; no byte outside the two destination ranges changes, and the image is the function of the image before that the other results are about |
| CropYuv.BothPlanes | libcamera/QualcommCameraHardware.cpp:3973-4001 | the chroma pass reads original bytes and spares the cropped luma |
| CropYuv.CroppedIsAfter | libcamera/QualcommCameraHardware.cpp:3935-3971 | the image after the crop is a function of the image before |
| CropYuv.AfterRow | libcamera/QualcommCameraHardware.cpp:3953-3964 | of which each copied row, even one past the picture, is the original source row |
| CropYuv.SparesWhenBehind | libcamera/QualcommCameraHardware.cpp:3953-3964 | a plane's crop changes nothing outside its cropped rows when the row after the last one would not land ahead of its source |
| CropYuv.PictureSparesRestIff | libcamera/QualcommCameraHardware.cpp:3935-4001 | for every image nothing changes outside the cropped picture iff that holds of both planes |
| CropYuv.SpoilingLayoutExample | libcamera/QualcommCameraHardware.cpp:3953-3964 | encoder offsets, with planes apart and inside the buffer, under which a byte outside the cropped picture changes |
| CropYuv.TightLayoutCrops | libcamera/QualcommCameraHardware.cpp:3923-3928 | a tightly packed picture meets all conditions, for any two sizes the caller's guard admits |
| EepromFile.AddressOnChip | libsensors/i2c-tools/eepromer/eepromer.c:341-354 | the address bytes name the address modulo the chip size |
| EepromFile.ProgrammedInPage | libsensors/i2c-tools/eepromer/eepromer.c:217-271 | a write inside one page lands byte for byte |
| EepromFile.Eepromer.BlockWrite | libsensors/i2c-tools/eepromer/eepromer.c:217-271 | the chip programs the block at the address sent, or the transfer fails and nothing changes |
| EepromFile.Eepromer.BlockRead | libsensors/i2c-tools/eepromer/eepromer.c:276-335 | 64 bytes from that address on, or a negative answer |
| EepromFile.InodeRoundTrip | libsensors/i2c-tools/eepromer/eepromer.c:584-690 | parsing a header image returns the header |
| EepromFile.WordIs | libsensors/i2c-tools/eepromer/eepromer.c:614-617 | a header number is four bytes, the lowest first, in two's complement |
| EepromFile.Eepromer.InodeWrite | libsensors/i2c-tools/eepromer/eepromer.c:584-637 | the header replaces the first page, unless the transfer fails |
| EepromFile.Eepromer.InodeRead | libsensors/i2c-tools/eepromer/eepromer.c:641-690 | the header is what the first page says, or the old one after a failure |
| EepromFile.Eepromer.ContentWrite | libsensors/i2c-tools/eepromer/eepromer.c:395-458 | stops at the first failed transfer; without one the chip starts with the time and the length and holds the input behind that header, for every length that fits, and no block crosses a page |
| EepromFile.Eepromer.ContentRead | libsensors/i2c-tools/eepromer/eepromer.c:461-501 | puts out the stored file, cut short only by the first block transfer that does not answer 0; a negative length puts out nothing |
| Copybit.ScaledAxis | libcopybit/copybit.cpp:102-107 | an interval of the destination axis, scaled with its origin and truncated, stays within the reach of the whole axis |
| Copybit.BlitInside | libcopybit/copybit.cpp:159-196 | a blit reads inside the source and writes inside the destination under every rotation, flip and meeting clip |
| Copybit.BlitMapsPixels | libcopybit/copybit.cpp:159-196 | an unscaled blit writes a destination pixel iff the pixel's own source, found by turning and flipping the image, lies in the source rectangle |
| Copybit.DestinationPixels | libcopybit/copybit.cpp:159-172 | the destination pixels written are those both in the clip and in the destination |
| Copybit.StretchMapsPixels | libcopybit/copybit.cpp:173-196 | an unscaled stretch that fits writes such a pixel iff its own source, the position in the destination turned, moved by the source origins and flipped, is read |
| Copybit.MulDivIs | libcopybit/copybit.cpp:102-107 | scaling gives the greatest number whose div-fold is not above the mul-fold |
| Copybit.StretchInside | libcopybit/copybit.cpp:159-196 | a stretch whose axes reach no further than the image reads inside it under every meeting clip, rotation and flip |
| Copybit.StretchNeedsReach | libcopybit/copybit.cpp:159-196 | a single clip that covers the whole destination reads inside only then |
| Copybit.SubmitsInsideIff | libcopybit/copybit.cpp:387-405 | all that a call submits for clips that meet its destination reads inside the source iff it draws nothing or no clip running to the end of the visible part of an axis ends past the image |
| Copybit.StretchInsideIff | libcopybit/copybit.cpp:387-405 | for a destination inside its image: iff the source is empty or both axes reach no further than the source image |
| Copybit.FitsInside | libcopybit/copybit.cpp:387-405 | that reach is enough for every destination |
| Copybit.HangingStretchExample | libcopybit/copybit.cpp:390 | but not needed when the destination hangs over its image |
| Copybit.KeptContained | libcopybit/copybit.cpp:387-405 | with clips that meet the destination of such a call every request reads inside the source and writes inside the destination |
| Copybit.PlainReach | libcopybit/copybit.cpp:102-107 | an axis that starts at zero or is not scaled reaches the end of its source interval |
| Copybit.ClipMeetsIff | libcopybit/copybit.cpp:165-170 | a blit writes a nonempty rectangle inside the destination iff the clip meets it |
| Copybit.SkippedIs | libcopybit/copybit.cpp:395-399 | a clip is skipped iff along some axis its wrapped length is zero or scales to less than one source pixel |
| Copybit.RotatedStretchExample | libcopybit/copybit.cpp:173-179 | an unscaled rotated stretch that reads outside |
| Copybit.ScaledOriginExample | libcopybit/copybit.cpp:181-189 | an upright shrinking one that does, because its origin is scaled with the wrong factor |
| Copybit.DisjointClipExample | libcopybit/copybit.cpp:395-399 | a clip beside the destination is submitted with a wrapped width |
| Copybit.StretchCopybit | libcopybit/copybit.cpp:343-413 | batches of at most 12 concatenate to the kept requests in order, up to the first failing submit; bad arguments submit nothing; what a call that reads inside submits for clips that meet its destination is contained in both images |
| Copybit.KeptPrefix | libcopybit/copybit.cpp:387-405 | the kept requests of a prefix of the clips are a prefix of all kept requests |
| BufferSizes.AlignIs | libgralloc/gpu.cpp:249-289 | each padding is the least multiple of its unit not below the size, unless that wraps |
| BufferSizes.Nv21HoldsPlanes | libgralloc/mapper.cpp:463-474 | an NV21 buffer holds both planes of the picture and is less than 8 KiB larger than the padded planes |
| BufferSizes.Nv12HoldsPlanes | libgralloc/gpu.cpp:282-288 | and a tiled NV12 buffer in both calculations |
| BufferSizes.Nv21Agrees | libgralloc/mapper.cpp:463-474 | reported and allocated NV21 sizes are equal for all positive sizes, even when they pass 32 bits |
| BufferSizes.Nv12RoundsUp | libgralloc/gpu.cpp:282-288 | the reported tiled NV12 size is the allocated one rounded up to 8 KiB, and is not smaller iff that does not wrap |
| BufferSizes.Nv12Example | libgralloc/gpu.cpp:282-288 | the two do differ: by 4 KiB for an 8x8 picture |

## Left out

- HeapRuns.RunKeepsHeap: takes one nonzero size set at the start, because a size that rounds to zero leaves an empty chunk behind and a later size is refused anyway; requests above 2^32 - 32 bytes are excluded, and WrappedRequest says exactly when those break the heap.
- PmemUserspace.PmemUserspaceAllocator.AllocPmemBuffer: takes requests up to 2^32 - 32 bytes, because larger ones wrap and break the heap (WrappedRequest); the callers in libgralloc/gpu.cpp pass positive signed sizes only. Takes a positive errno and a nonzero pmem size.
- PmemUserspace.PmemUserspaceAllocator.GrantBuffer: the same limit on requests.
- PmemUserspace.PoolRun: buffers of at least one byte (ZeroRequest says what the others do); that a client frees with the descriptor it was given is not part of the model.
- FramePosting.RunInv: one posting thread, swap interval fixed at 1 and no spurious wake-ups, because both waits are an `if`; the reuse path and posts of ordinary buffers are not modelled.
- LockWord.RunInv: fewer than 2^30 simultaneous locks, and threads unlock only what they hold; cache-flush flags, registering and terminating a handle are not modelled.
- TimerSpec.TimerRun: callbacks do not delete a timer that is already pending, and an event is not added again while it is on a list.
- EventLoop.EventLists.FirePending: a callback adds at most one timer and deletes none; it adds an event that is on no list when it runs.
- WatchTable.Watches.EventAdd: the event was prepared before, with a descriptor that is not negative.
- WatchTable.Watches.ProcessReadReadies: a ready event is not already on a list, which LoopTurn shows of every turn, and the number of ready descriptors is the size of the ready set.
- WatchTable.Watches.LoopTurn: callbacks neither watch nor unwatch descriptors.
- RequestRuns.RunInv: the debug port, locally issued requests and the contents of answers are not modelled; header and payload of an answer are one write; request objects are not reused, which the C++ allocator could do after a free.
- WakeLock.RunInv: the time between taking the lock and scheduling its release is one interval per event; the effect of concurrent writes to the remembered timer is not modelled.
- CdmaSms.RoundTrip: a parcel is a sequence of typed items; bytes, padding and alignment inside it are not modelled.
- BroadcastConfig.DispatchBrSmsCnf: one function for both kinds of entry, told apart by the number of integers; a count so large that the arrays do not fit the stack is not modelled.
- CropYuv.CropYuv420: offsets are unbounded, while the code keeps them in 32-bit numbers; `memcpy` is taken to copy overlapping rows as `memmove` does.
- EepromFile.Eepromer.ContentWrite: a failed transfer leaves the chip as it was. Times and lengths in the header are 32 bits wide.
- Copybit.StretchInsideIff: source rectangles whose left edge is not right of the right one, and destination areas up to 983040 pixels along an axis, so that products stay in 32 bits; formats, alpha and the contents of an image descriptor are not modelled.
- BufferSizes.Nv21Agrees: the `int` products are taken to wrap like the unsigned ones; other pixel formats have only one of the two calculations in common and are not modelled.
- Page size: 4096, as on the device.
- The framebuffer slot mask, dithering and copy-back in libgralloc/gpu.cpp and libgralloc/framebuffer.cpp: easy beside the above.
- Parameter handling, EXIF and thread control of the camera, audio routing, sensors, lights, GPS, recovery and the other i2c tools: mostly tables and calls into closed code.
- Logging, print buffers and string tables.

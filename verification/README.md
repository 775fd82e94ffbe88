# Verification of the malloc lab allocators

A Dafny model of the memory-allocator handout in `src/malloclab-handout`, with proofs. It
covers the simulated memory (`memlib.c`), the segregated-fit allocator (`segregate.c`), the
implicit-list allocator (`implicit.c`) with its three placement strategies, the driver that
judges an allocator by running request traces (`mdriver.c`), and the K-best sampler that
times it (`fcyc.c`). `dafny verify dfyconfig.toml` checks the whole project.

## How the model is built

* Memory is one byte array whose indexes are the addresses; `NULL` is address 0. Both
  allocators read and write it only through 4-byte and 8-byte little-endian loads and
  stores, so tags, list links and payloads share the same bytes as they do in C.
  (`Memory.dfy`)
* The abstract heap is a map from payload pointer to size and state. `Tiling` says that the
  blocks are disjoint and leave no gap; `Tagged` that every header and footer in memory says
  what the map says. The map is not free to be anything: `TagsDetermine` shows that memory
  determines it. (`Blocks.dfy`, `LiveBlocks.dfy`)
* The free lists are an abstract map from node to slot and insertion time. The invariant
  `Linked` is local: a node and its two neighbours in memory point at each other, stay in the
  same slot and have decreasing insertion times. That the lists are finite, acyclic and
  complete is a theorem about it. (`FreeLists.dfy`, `SegregateHeap.dfy`,
  `SegregateTheorems.dfy`)
* The C functions are methods of `Segregate.Allocator`, `Implicit.Allocator`,
  `Ranges.RangeList`, `Records.Ledger`, the two `Evaluation` classes and
  `Sampler.KBestSampler`, store by store and in the same order. Long functions are cut at
  their branches into several methods.
* What the segregated allocator makes of the blocks, of slot 0 of its table, which no list
  invariant mentions, and of the other lists and their order is a function of the heap and
  the lists before the call. (`HeapView.dfy`, `ListView.dfy`)
* The driver's records are a `Ledger`, whose methods know nothing of the allocator that they
  check. `Driver.dfy` runs them over the segregated allocator, `ImplicitDriver.dfy` over the
  implicit one. (`Ranges.dfy`, `Books.dfy`, `Records.dfy`)
* Which requests an allocator refuses, and what it makes of the others, is determined by its
  state before the request; a run is a sequence of states that are linked in this way. The
  drivers' loops return the run they went through. (`Runs.dfy`, `Requests.dfy`,
  `ImplicitRequests.dfy`)
* `Valid()` of an allocator is what every run keeps; each operation requires it and
  ensures it. The driver's loops then turn the operations' contracts into theorems about
  whole traces.

The main results:

* `Driver.Evaluation.EvalMmValid`: on every well-formed trace, the driver accepts the
  segregated allocator exactly if its run, which the trace alone determines
  (`Runs.RunUnique`), completes, and no request is a realloc of a live id with a low byte of
  128 or more. The run ends early only at a request for which neither a free block nor the
  memory above brk has room. So nothing else can make it fail: no misaligned, overlapping or
  outlying payload, and no lost byte. Where memory suffices for the trace, it accepts exactly
  if there is no such realloc.
* `ImplicitDriver.Evaluation.EvalMmValid`: the same over the implicit allocator, under any
  placement strategy. Its run ends early exactly at a request that is refused or kills the
  program; where memory suffices, only reallocs can be refused and nothing is fatal. After an
  accepted trace each live block has exactly the aligned size of its last request, the
  next-fit cursor is a block, block sizes and the 8 bytes before them add up to the heap
  size, and free blocks are apart if no live block was resized.
* `Driver.Evaluation.EvalMmUtil`, `ImplicitDriver.Evaluation.EvalMmUtil`: the utilisation is
  the peak sum of live request sizes over the heap size, which is the sum of all block sizes
  and a fixed prefix; it is at most 1 and at least that peak over what the requests demand.
  There is one exactly if the run completes, and so for every trace that eval_mm_valid has
  accepted (`Judge`).
* `Segregate.Allocator.Malloc`, `Free`, `Realloc`: the exact blocks, lists and slot 0
  afterwards; one block is gained, lost or resized, with the aligned size or 8 bytes more; no
  byte of another live payload changes; old contents are kept; the heap grows only if no free
  block anywhere is large enough.
* `SegregateTheorems`: the lists are exactly the free blocks of more than 16 bytes by class;
  the allocated blocks alone determine the free ones; the chosen block is less than twice as
  large as any free block that would do, up to 4096 bytes.
* `Implicit.Allocator.Malloc`, `Free`, `Realloc`: the exact blocks afterwards, for all seven
  outcomes of realloc and each strategy's choice, with the exact conditions for NULL, for
  death of the program and for leaving two free blocks next to each other.
* `Sampler.KBestSampler`: the array holds the k smallest samples in order, and convergence
  means that k samples are within the tolerance of the smallest one.

Some properties that the documentation suggests are false of the code. For each there is a
run or instance that shows it, and the exact condition:

* The driver's byte check reads signed characters: `Driver.RejectKeptData` has it reject a
  trace whose data is all there, `Driver.Evaluation.EvalMmValid` says which traces it rejects.
  That `char` is signed is the choice of the usual x86 platforms; where it is unsigned,
  `Records.Char` would be the identity and no request would be misread.
* The driver's overlap check looks only at end points (`Ranges.SwallowedRangeAccepted`,
  `Ranges.DisjointIff`).
* Slot 0 of the table keeps pointers to blocks that no longer exist, after a free
  (`SlotZero.StaleByFree`) and after a realloc that frees no neighbour of the head
  (`SlotZero.StaleByRealloc`). `Segregate.Allocator.Malloc`, `Free` and `Realloc` each state
  when the head is a free block of 16 bytes after the call: exactly if the heap before the
  call satisfies `HeapView.GoodAfterMalloc`, `GoodAfterFree` or `GoodAfterRealloc`. The block
  that a new or moved payload gets, which these conditions mention, is the end of the heap if
  no free block has room, or else the one that the lists before the call determine
  (`ListView.FoundUnique`). A malloc of more than 8 bytes never spoils a good head.
* A block in slot 0 is never unlinked, so that two requests can get the same payload
  (`SlotZero.SamePayloadTwice`). `Segregate.Allocator.Malloc` returns an allocated block
  exactly if the size is at most 8 and the head is allocated.
* The implicit realloc leaves adjacent free blocks (`ImplicitRuns.ShrinkLeavesNeighbours`),
  exactly under `ImplicitHeap.Splinters`, and fails although a free block has room
  (`ImplicitRuns.RefusedWithRoom`), exactly under `ImplicitHeap.Stuck`.

Where comments and code disagree, the model follows the code:

* `implicit.c:507-511` says that a free but too small last block behind the resized one is
  extended; the code extends the heap only when the resized block is itself the last.
* `implicit.c:312` sets the end marker at the old end of the heap. The new end is marked by
  zeroed memory, so it reads as a free block of size 0, and the branch at
  `implicit.c:562-566` is never reached.
* `implicit.c:373` compares the result of `extend_heap` with -1, although it is NULL on
  failure (`implicit.c:309`).
* `segregate.c:328` reports failure as 1, `mdriver.c:608` looks for a negative value.

## Model

| member | source | states |
|---|---|---|
| `Driver.Evaluation.EvalMmValid` | src/malloclab-handout/mdriver.c:594-704 | for every well-formed trace: result 1 exactly if the run completes and no realloc of a live id has a low byte of 128 or more; else it stops at the first request that is refused or misread, with exactly the answer that the state before determines; if the memory suffices, only the latter; after an accepted trace, records, ranges and bytes agree with the heap, and block sizes and the 96 bytes before them add up to its size |
| `Driver.Evaluation.EvalMmUtil` | src/malloclab-handout/mdriver.c:717-795 | total_size is the sum of live request sizes after every request; the result is the peak of that sum over brk minus the start of the heap, which is the sum of all block sizes and 96 bytes; it lies between that peak over the demand and 1; there is a result exactly if the run completes, in particular whenever the memory suffices |
| `Driver.Evaluation.Quotient` | src/malloclab-handout/mdriver.c:794 | the division |
| `Driver.Evaluation.CountBegin` | src/malloclab-handout/mdriver.c:726-728 | initialising leaves a valid heap and consistent empty records |
| `Driver.Evaluation.Judge` | src/malloclab-handout/mdriver.c:311-316 | the trace is accepted exactly if the run completes without a misread request; after clean_up, eval_mm_util then has a result, which is the peak of the live request sizes over the size of the heap |
| `Driver.Evaluation.Resize` | src/malloclab-handout/segregate.c:400-434 | the block of an id resized: refused exactly if it has to move and cannot, or the id has none and malloc refuses; else the step that the state before prescribes |
| `Driver.Evaluation.Begin` | src/malloclab-handout/mdriver.c:603-611 | resetting and initialising leaves a valid heap, an empty range list and consistent empty records |
| `Driver.Evaluation.DoOp` | src/malloclab-handout/mdriver.c:614-700 | one request keeps records, ranges, bytes and heap consistent and makes the step that the heap before prescribes; it fails exactly if misread or refused, and dies exactly if a refused realloc would have to move a block |
| `Driver.Evaluation.DoAlloc` | src/malloclab-handout/mdriver.c:623-649 | a malloc whose result passes all checks and is recorded, or failure, exactly if neither a free block nor the memory above brk has room |
| `Driver.Evaluation.DoRealloc` | src/malloclab-handout/mdriver.c:651-686 | a realloc whose result passes the range checks; rejected exactly if misread or refused, fatal exactly if it has to move a block and cannot |
| `Records.Ledger.Replace` | src/malloclab-handout/mdriver.c:660-685 | the old range leaves, the new one is accepted, and the result is accepted exactly if the byte check does not misread; then records, ranges and bytes agree with the heap again |
| `Records.Ledger.SwapRange` | src/malloclab-handout/mdriver.c:660-664 | of the old and the new block only the new one has a range, and every check of add_range passes |
| `Records.Ledger.CheckOld` | src/malloclab-handout/mdriver.c:672-680 | for any memory, accepted exactly if every byte checked equals the id's low byte and that is below 128; so, given correct bytes, exactly if there are none or it is below 128 |
| `Records.Ledger.Recorded` | src/malloclab-handout/mdriver.c:438-441 | an address is in a recorded range exactly if it is a payload byte of a live id, and then it holds the id's low byte |
| `Driver.Evaluation.DoFree` | src/malloclab-handout/mdriver.c:688-694 | records, ranges, bytes and heap stay consistent without the freed id |
| `Records.Ledger.Remember` | src/malloclab-handout/mdriver.c:644-648 | filling a payload and recording it makes records, ranges and bytes agree with the heap; no other byte changes |
| `Records.Ledger.Add` | src/malloclab-handout/mdriver.c:636-648 | a newly allocated block passes all checks and is recorded and filled |
| `Records.Ledger.Forget` | src/malloclab-handout/mdriver.c:691-692 | the pointer and the range of an id leave the records of the others consistent |
| `Records.Ledger.Clear` | src/malloclab-handout/mdriver.c:603-605 | with cleared ranges the records agree with an empty heap |
| `Records.Ledger.Enter` | src/malloclab-handout/mdriver.c:740-742 | the id's new block and size replace its old ones, if any; arrays, heap and requested sizes agree again |
| `Records.Ledger.Leave` | src/malloclab-handout/mdriver.c:775-779 | without the id's block they still agree |
| `Records.Ledger.CleanUp` | src/malloclab-handout/mdriver.c:580-584 | both arrays are zero again |
| `Driver.RejectKeptData` | src/malloclab-handout/mdriver.c:675 | on a two-request trace the driver reports failure although the allocator keeps all bytes |
| `Driver.Evaluation.CountOp` | src/malloclab-handout/mdriver.c:730-791 | one request changes total_size by exactly the change of the live request sizes, makes the step that the heap before prescribes, and fails exactly if refused |
| `Driver.Evaluation.CountAlloc` | src/malloclab-handout/mdriver.c:733-746 | the new block and its size are recorded for the id; fails exactly if refused |
| `Driver.Evaluation.CountRealloc` | src/malloclab-handout/mdriver.c:753-768 | the resized block and its size replace those of the id; fails exactly if refused |
| `Driver.Evaluation.CountFree` | src/malloclab-handout/mdriver.c:775-784 | the id's block is gone, all others are still recorded |
| `Records.FitTogether` | src/malloclab-handout/mdriver.c:749-750 | the live request sizes add up to no more than the heap |
| `Records.CountStep` | src/malloclab-handout/mdriver.c:746-784 | the incremental update of total and peak equals the sum and peak over the trace |
| `Records.ReplaceReady` | src/malloclab-handout/mdriver.c:655-680 | after mm_realloc the new block is apart from the other ids' blocks and holds the old bytes |
| `Records.BookBlock` | src/malloclab-handout/mdriver.c:644-648 | filling and recording a new block makes records, ranges and bytes agree with the enlarged heap |
| `Records.BookReplace` | src/malloclab-handout/mdriver.c:753-768 | replacing an id's block keeps live ids and allocated blocks in one-to-one correspondence |
| `Records.DropBlock` | src/malloclab-handout/mdriver.c:660-661 | without the old block's range, the records agree with the heap without that block |
| `Requests.ResizedBlock` | src/malloclab-handout/segregate.c:400-434 | which answer and which state a realloc of a live id gives, in terms of the state before |
| `Requests.NewBlock` | src/malloclab-handout/segregate.c:348-381 | likewise for a malloc |
| `Requests.FreedBlock` | src/malloclab-handout/segregate.c:387-392 | likewise for a free |
| `Requests.Judged` | src/malloclab-handout/mdriver.c:594-704 | acceptance is completion without a misread request; with enough memory for the trace, only a misread request can stop it |
| `Requests.StepUnique` | src/malloclab-handout/segregate.c:348-434 | blocks, lists, slot 0 and recorded pointers before a request determine those after it |
| `Requests.AcceptsFunctional` | src/malloclab-handout/segregate.c:348-434 | and so do accepted requests |
| `Requests.RunRefused` | src/malloclab-handout/mdriver.c:614-700 | a run that ends at a refused request shows that none completes |
| `Runs.RunUnique` | src/malloclab-handout/mdriver.c:614-700 | two runs of a trace from the same state agree request by request |
| `Runs.RunEnds` | src/malloclab-handout/mdriver.c:614-700 | a run that ends at a request that is not accepted shows that none completes |
| `ListView.ChosenFound` | src/malloclab-handout/segregate.c:357-371 | the block that the walk through slots and links takes is the latest inserted one with room of the lowest slot that has one |
| `ListView.FoundUnique` | src/malloclab-handout/segregate.c:357-371 | blocks and lists before a request determine that block |
| `ListView.ListsOrdered` | src/malloclab-handout/segregate.c:124-130 | no two nodes of a list have the same insertion time |
| `ListView.ListStamps` | src/malloclab-handout/segregate.c:165-191 | following the links of a list goes back in insertion time |
| `ImplicitDriver.Evaluation.EvalMmValid` | src/malloclab-handout/mdriver.c:594-704 | over the implicit allocator, for every well-formed trace and strategy: accepted exactly if the run completes and no request is misread; else it stops at the first refused, fatal or misread request with exactly the answer that the heap before determines; with enough memory only reallocs of live ids are refused and none is fatal; accepted runs leave every live block with exactly the aligned last size, the cursor a block, block sizes and 8 bytes adding up to the heap size, and, if no live block was resized, no two adjacent free blocks |
| `ImplicitDriver.Evaluation.DoOp` | src/malloclab-handout/mdriver.c:614-700 | one request keeps all that and makes the step that the heap before prescribes; it fails exactly if refused or misread and dies exactly if fatal; where it was refused nothing has changed |
| `ImplicitDriver.Evaluation.DoAlloc` | src/malloclab-handout/mdriver.c:623-649 | a malloc that passes all checks, or is refused, exactly if no free block has room and the heap cannot grow |
| `ImplicitDriver.Evaluation.DoRealloc` | src/malloclab-handout/mdriver.c:651-686 | a realloc that passes the range checks; rejected exactly if stuck or misread, fatal exactly if the last block has to grow and cannot |
| `ImplicitDriver.Evaluation.DoFree` | src/malloclab-handout/mdriver.c:688-694 | the heap and the records stay consistent and free blocks apart |
| `ImplicitDriver.Evaluation.Begin` | src/malloclab-handout/mdriver.c:603-611 | on a zeroed region, a valid heap, an empty range list and consistent empty records |
| `ImplicitDriver.Evaluation.EvalMmUtil` | src/malloclab-handout/mdriver.c:717-795 | over the implicit allocator: the peak of the live request sizes over brk minus the start of the heap, which is the sum of all block sizes and 8 bytes; between that peak over the demand and 1; a result exactly if the run completes; with enough memory it fails only at reallocs |
| `ImplicitDriver.Evaluation.CountBegin` | src/malloclab-handout/mdriver.c:726-728 | on a zeroed region, a valid heap and consistent empty records |
| `ImplicitDriver.Evaluation.CountOp` | src/malloclab-handout/mdriver.c:730-791 | one request changes total_size by exactly the change of the live request sizes, and fails exactly if refused or fatal |
| `ImplicitDriver.Evaluation.CountAlloc` | src/malloclab-handout/mdriver.c:733-746 | the new block and its size are recorded for the id; fails exactly if refused |
| `ImplicitDriver.Evaluation.CountRealloc` | src/malloclab-handout/mdriver.c:753-768 | the resized block and its size replace those of the id; fails exactly if refused or fatal |
| `ImplicitDriver.Evaluation.CountFree` | src/malloclab-handout/mdriver.c:775-784 | the id's block is gone, all others are still recorded |
| `ImplicitDriver.Evaluation.Judge` | src/malloclab-handout/mdriver.c:311-316 | the trace is accepted exactly if the run completes without a misread request; after clean_up, eval_mm_util then has a result, which is the peak of the live request sizes over the size of the heap |
| `ImplicitRequests.StepUnique` | src/malloclab-handout/implicit.c:396-587 | heap, cursor and recorded pointers before a request determine those after it |
| `ImplicitRequests.PickedUnique` | src/malloclab-handout/implicit.c:131-217 | each strategy picks one block only |
| `ImplicitRequests.DestinationUnique` | src/malloclab-handout/implicit.c:481-577 | a realloc can put the block at one place only |
| `ImplicitRequests.AcceptsFunctional` | src/malloclab-handout/implicit.c:396-587 | and so do accepted requests |
| `ImplicitRequests.RunRefused` | src/malloclab-handout/mdriver.c:614-700 | a run that ends at a refused or fatal request shows that none completes |
| `ImplicitRequests.NewBlock` | src/malloclab-handout/implicit.c:396-419 | which answer and which state a malloc gives, in terms of the state before |
| `ImplicitRequests.ResizedBlock` | src/malloclab-handout/implicit.c:439-587 | likewise for a realloc of a live id |
| `ImplicitRequests.FreedBlock` | src/malloclab-handout/implicit.c:425-431 | likewise for a free |
| `ImplicitDriver.Evaluation.Resize` | src/malloclab-handout/implicit.c:439-587 | the block of an id resized with exactly the aligned size; refused or fatal exactly as the heap before determines; else the step that it prescribes |
| `ImplicitRequests.Judged` | src/malloclab-handout/mdriver.c:594-704 | acceptance is completion without a misread request |
| `ImplicitDriver.AmpleRoom` | src/malloclab-handout/implicit.c:336-357 | where the request fits above brk, no malloc is refused and no realloc is fatal |
| `ImplicitDriver.CanGrow` | src/malloclab-handout/implicit.c:336-357 | where no free block has room and the request fits above brk, do_malloc can grow the heap |
| `Books.MisreadTrace` | src/malloclab-handout/mdriver.c:675 | a well-formed two-request trace that reallocs a live id of low byte 128 |
| `Books.BookAlloc` | src/malloclab-handout/mdriver.c:647-648 | recording a new block keeps live ids and allocated blocks in one-to-one correspondence |
| `Books.BookFree` | src/malloclab-handout/mdriver.c:691-693 | so does forgetting a freed one |
| `Books.FilledKept` | src/malloclab-handout/mdriver.c:639-644 | an operation that keeps the other payloads keeps every other id's fill byte |
| `Books.FilledMemset` | src/malloclab-handout/mdriver.c:644 | filling the new payload gives every live id its fill byte |
| `Books.RangedAdd` | src/malloclab-handout/mdriver.c:438-441 | adding a new payload's range keeps the list exactly the live payloads' ranges |
| `Books.RangedBytes` | src/malloclab-handout/mdriver.c:438-441 | the addresses in the recorded ranges are exactly the payload bytes of the live ids |
| `Books.FilledBytes` | src/malloclab-handout/mdriver.c:644 | every payload byte of a live id holds its low byte |
| `Books.RangedRemove` | src/malloclab-handout/mdriver.c:692 | removing a freed payload's range does too |
| `Books.NewRangeAccepted` | src/malloclab-handout/mdriver.c:404-430 | the payload of a newly allocated block passes every check of add_range |
| `Books.Packed` | src/malloclab-handout/mdriver.c:707-714 | disjoint intervals inside an interval have no more elements than it |
| `Books.RequestedLive` | src/malloclab-handout/mdriver.c:736-743 | the sizes summed are those of exactly the live ids |
| `Books.NeedBounds` | src/malloclab-handout/segregate.c:351-372 | a request takes its size rounded up to a multiple of 8, and 8 bytes of tags |
| `Ranges.RangeList.AddRange` | src/malloclab-handout/mdriver.c:396-443 | accepted exactly if the address is a multiple of 8, the first and the last byte are in the heap, and neither is in a recorded range; recorded in front with both these addresses, or nothing changes |
| `Ranges.RangeList.RemoveRange` | src/malloclab-handout/mdriver.c:448-460 | the first range that starts there, if any, is taken out of the linked list |
| `Ranges.RangeList.Unlink` | src/malloclab-handout/mdriver.c:454 | writing through the pointer to the predecessor's link removes one node and keeps the rest in order |
| `Ranges.RangeList.ClearRanges` | src/malloclab-handout/mdriver.c:465-475 | the traversal from the head ends, and the list is empty |
| `Ranges.RemovedExact` | src/malloclab-handout/mdriver.c:452-458 | where starts are distinct, exactly that range is gone |
| `Ranges.DisjointIff` | src/malloclab-handout/mdriver.c:421-430 | for nonempty ranges, no address of the new one is in a recorded one exactly if neither end is and no recorded range lies strictly inside |
| `Ranges.SwallowedRangeAccepted` | src/malloclab-handout/mdriver.c:423-424 | two calls of add_range, the second of which accepts a range around the first one |
| `Segregate.Allocator.Malloc` | src/malloclab-handout/segregate.c:348-381 | exactly one block taken, whole or cut, and the exact slot 0 and lists; a block that was not allocated, with the aligned size or 8 more, from the first large enough block of the first slot that has one; for sizes up to 8 the head of slot 0, if any, even an allocated one, and else the search goes on like for other sizes; other payloads kept; grows only if no free block has room; NULL only when that is refused, and then nothing changes; slot 0 good afterwards exactly under GoodAfterMalloc, and if it was before and the size exceeds 8 |
| `Segregate.Allocator.Free` | src/malloclab-handout/segregate.c:387-392 | exactly that block is no longer allocated, merged with its free neighbours, and the exact lists; other payloads kept; slot 0 changes only for a 16-byte result and is good afterwards exactly under GoodAfterFree |
| `Segregate.Allocator.Realloc` | src/malloclab-handout/segregate.c:400-434 | NULL as malloc, size 0 as free; else the block has the aligned size or 8 more and moves exactly if it was too small, to the block that malloc would choose or the end of the heap; the common prefix of bytes is kept and so are all other payloads; the exact blocks, lists and slot 0, which is good afterwards exactly under GoodAfterRealloc, or GoodAfterMalloc for NULL; the heap grows only if no free block has room |
| `Segregate.Allocator.MoveBlock` | src/malloclab-handout/segregate.c:415-421 | a new block, chosen as by malloc, with the old bytes, the old one freed; or a fault with nothing changed if the heap cannot grow |
| `Segregate.Allocator.Init` | src/malloclab-handout/segregate.c:322-341 | the initial heap satisfies the invariant with empty lists; 1 exactly if mem_sbrk refuses |
| `Segregate.Allocator.FreelistAlloc` | src/malloclab-handout/segregate.c:151-194 | the first block of the list that is large enough is taken; NULL exactly if the list has none, and then nothing changes; from slot 0 the head is taken, even an allocated one |
| `Segregate.Allocator.TakeBlock` | src/malloclab-handout/segregate.c:169-186 | the chosen block leaves its list and is cut exactly if at least 16 bytes would remain |
| `Segregate.Allocator.CutAndInsert` | src/malloclab-handout/segregate.c:181-183 | the front is allocated with its bytes kept, the rest becomes free and is merged and listed (also segregate.c:427-429) |
| `Segregate.Allocator.FreelistInsert` | src/malloclab-handout/segregate.c:137-142 | the whole invariant holds again after a block becomes free; merged neighbours leave their lists and the merged block is first in its own |
| `Segregate.Allocator.FreelistInsert2` | src/malloclab-handout/segregate.c:105-131 | a block of more than 16 bytes is pushed on the list of its class, a 16-byte block in front of slot 0 with a link to the old head |
| `Segregate.Allocator.Coalesce` | src/malloclab-handout/segregate.c:275-311 | the block and its free neighbours become one free block, the neighbours leave their lists, and no two free blocks adjoin |
| `Segregate.Allocator.TakeNext` | src/malloclab-handout/segregate.c:285-294 | a free following block is unlinked and its size added, or nothing changes |
| `Segregate.Allocator.TakePrev` | src/malloclab-handout/segregate.c:296-303 | likewise the preceding block |
| `Segregate.Allocator.DelBlk` | src/malloclab-handout/segregate.c:76-88 | a listed block leaves its list; smaller blocks and slot 0 are not touched |
| `Segregate.Allocator.ExtendHeap` | src/malloclab-handout/segregate.c:205-228 | NULL exactly if the size is not positive, unaligned or refused; else only brk and the new epilogue change |
| `SegregateTheorems.ListsExact` | src/malloclab-handout/segregate.c:65-88 | list i holds, without repetition, exactly the free blocks of more than 16 bytes whose capacity is of class i |
| `SegregateTheorems.ListsLinked` | src/malloclab-handout/segregate.c:70-88 | in memory: the slot points at the first node, each at the next, the last at null; back links lead back, the first one's to the slot |
| `SegregateTheorems.LivePlaced` | src/malloclab-handout/mdriver.c:404-430 | live payloads are aligned, behind the table, inside the heap and pairwise disjoint |
| `SegregateTheorems.LiveDeterminesHeap` | src/malloclab-handout/segregate.c:275-311 | two valid heaps with the same allocated blocks have the same free blocks |
| `SegregateTheorems.MemoryDeterminesHeap` | src/malloclab-handout/segregate.c:40-50 | the blocks can be read off the memory in one way only |
| `SegregateTheorems.HeapAccounted` | src/malloclab-handout/segregate.c:322-341 | after any operation, a walk from heap_listp visits all blocks, and their sizes and the bytes before heap_listp add up to the heap size |
| `SegregateTheorems.StepsUndo` | src/malloclab-handout/segregate.c:53-54 | on its blocks, stepping forward by the header and back by the footer are inverse |
| `SegregateTheorems.ChosenFirst` | src/malloclab-handout/segregate.c:165-171 | the chosen block is the first with room in its list, and no free block of a class between the request's and the list's has room |
| `SegregateTheorems.NearlyBest` | src/malloclab-handout/segregate.c:241-268 | up to a capacity of 4096 bytes, no free block with room has half the capacity of the chosen one or less |
| `SegregateTheorems.ClassWidth` | src/malloclab-handout/segregate.c:241-268 | capacities of one class differ by less than a factor of 2 |
| `SlotZero.StaleByFree` | src/malloclab-handout/segregate.c:79 | five calls on an empty heap after which slot 0 points into the payload of an allocated block |
| `SlotZero.StaleByRealloc` | src/malloclab-handout/segregate.c:427-429 | four calls on an empty heap, none of which frees a neighbour of the head, after which slot 0 points to no block |
| `SlotZero.SamePayloadTwice` | src/malloclab-handout/segregate.c:79 | malloc, free, malloc, malloc of 8 bytes: the last two return the same payload |
| `SlotZero.FreeBehind` | src/malloclab-handout/segregate.c:118-122 | malloc, malloc, free on an empty heap: the exact blocks, and the freed one in slot 0 |
| `HeapView.FreedHeadIff` | src/malloclab-handout/segregate.c:275-311 | after a free, slot 0 is a free 16-byte block exactly if the freed block has 16 bytes and no free neighbour, or slot 0 was one and not a neighbour |
| `HeapView.TakenHeadIff` | src/malloclab-handout/segregate.c:169-186 | after a malloc, exactly if a rest of 16 bytes is cut off, or it was one and was not taken |
| `HeapView.CutHeadIff` | src/malloclab-handout/segregate.c:427-429 | after a shrink, exactly if the rest is 16 bytes and not merged, or it was one and not the block behind |
| `HeapView.MovedHeadIff` | src/malloclab-handout/segregate.c:415-421 | after a moving realloc, exactly by the sizes and neighbours of the old and the new block before the call |
| `HeapView.TakenKeepsHead` | src/malloclab-handout/segregate.c:348-381 | an allocation of more than 16 bytes leaves a good slot 0 good |
| `HeapView.FreedSeen` | src/malloclab-handout/segregate.c:118-122 | after a free, an empty slot 0 still means that there is no free block of 16 bytes |
| `HeapView.CutSeen` | src/malloclab-handout/segregate.c:181-183 | so it does after a cut |
| `HeapView.FreedIs` | src/malloclab-handout/segregate.c:387-392 | the heap after a free is the merged one, with the freed block no longer live |
| `HeapView.TakenExact` | src/malloclab-handout/segregate.c:169-186 | where free blocks are apart, the rest of a cut block is not merged |
| `SegregateHeap.SearchComplete` | src/malloclab-handout/segregate.c:357-368 | if no list from the request's class upward has room, no free block at all has; for sizes up to 8, if there is no free 16-byte block |
| `SegregateHeap.ChosenFits` | src/malloclab-handout/segregate.c:165-171 | that block is free and has room |
| `SegregateHeap.Unlink` | src/malloclab-handout/segregate.c:80-86 | the two stores keep tags, payloads and all other list members |
| `SegregateHeap.Push` | src/malloclab-handout/segregate.c:124-130 | the four stores add one list member and keep tags and payloads |
| `SegregateHeap.PushSmall` | src/malloclab-handout/segregate.c:118-122 | the two stores for a 16-byte block disturb no list of slots 1 to 10 |
| `SegregateHeap.CoalesceStore` | src/malloclab-handout/segregate.c:305 | the final tag write completes the merged tiling |
| `SegregateHeap.SplitStores` | src/malloclab-handout/segregate.c:181-182 | the two tag writes complete the cut tiling and keep the front's bytes |
| `SegregateHeap.TakeStore` | src/malloclab-handout/segregate.c:185 | allocating a whole block keeps tiling, lists and payloads |
| `SegregateHeap.GrowStores` | src/malloclab-handout/segregate.c:226-376 | moving the epilogue and tagging the new room extends the tiling |
| `SegregateHeap.OwnerWrite` | src/malloclab-handout/mdriver.c:644 | bytes written by the owner of a live payload disturb neither the heap nor another payload |
| `FreeLists.BypassedLinked` | src/malloclab-handout/segregate.c:83-86 | bypassing a node removes exactly it from the lists |
| `FreeLists.PushedLinked` | src/malloclab-handout/segregate.c:125-130 | pushing a node adds exactly it, in front of its list |
| `FreeLists.BypassStores` | src/malloclab-handout/segregate.c:80-86 | the stores hit the two neighbours' cells and no other link |
| `FreeLists.PushStores` | src/malloclab-handout/segregate.c:124-130 | the stores hit the four cells concerned and no other link |
| `FreeLists.BypassedZero` | src/malloclab-handout/segregate.c:83-86 | bypassing a node does not touch slot 0 |
| `FreeLists.ChainShape` | src/malloclab-handout/segregate.c:165-191 | following next links visits distinct nodes of one slot and ends at null |
| `FreeLists.NodeOnList` | src/malloclab-handout/segregate.c:165-191 | every node is met by following the links from its slot |
| `SizeClass.FltIndex` | src/malloclab-handout/segregate.c:241-268 | for every non-negative 32-bit argument the shift-and-mask loop computes the size class |
| `SizeClass.FltClassIsLog` | src/malloclab-handout/segregate.c:261-267 | the class is the rounded-up binary logarithm less 3 if that logarithm is between 3 and 13, and else 0 or 10 |
| `SizeClass.FltClassMonotone` | src/malloclab-handout/segregate.c:360 | larger capacities have no smaller class |
| `SizeClass.FltClassOfAlign` | src/malloclab-handout/segregate.c:357-371 | a size and its aligned size have the same class |
| `SizeClass.NarrowStep` | src/malloclab-handout/segregate.c:253-259 | each step keeps v equal to the argument shifted by r, with its highest bit in the remaining range |
| `Blocks.TagsDetermine` | src/malloclab-handout/segregate.c:40-50 | two readings of the same tags are the same blocks |
| `Blocks.StepsInvert` | src/malloclab-handout/segregate.c:53-54 | stepping forward by the header and back by the footer are inverse |
| `Blocks.WalkTiles` | src/malloclab-handout/implicit.c:68 | stepping forward visits exactly the blocks from there on, in address order, and their sizes fill the heap up to brk |
| `Blocks.PrevBlock` | src/malloclab-handout/segregate.c:53 | every block but the first, and the end, is preceded by a block that ends there |
| `Blocks.SplitTiles` | src/malloclab-handout/segregate.c:181-182 | cutting a block leaves a tiling |
| `Blocks.JoinedTiles` | src/malloclab-handout/segregate.c:288-305 | joining two neighbours leaves a tiling |
| `Blocks.ExtendedTiles` | src/malloclab-handout/segregate.c:372-376 | a block at the end of the heap extends the tiling |
| `Blocks.SetBlk` | src/malloclab-handout/segregate.c:48-50 | header, then footer where the new header puts it; no other byte changes |
| `Blocks.RetagOne` | src/malloclab-handout/segregate.c:48-50 | tagging one block keeps the other tags and every payload byte |
| `Blocks.PayloadWrite` | src/malloclab-handout/mdriver.c:644 | writing inside one payload keeps all tags and the other payloads |
| `Blocks.BlkSize` | src/malloclab-handout/segregate.c:40 | the size that a header in memory holds |
| `Blocks.BlkAlloc` | src/malloclab-handout/segregate.c:43 | the state that a header in memory holds |
| `Blocks.Unpack` | src/malloclab-handout/segregate.c:15-18 | size and state survive packing into one word |
| `Blocks.PackBits` | src/malloclab-handout/segregate.c:15 | PACK sets bit 0 for an allocated block and keeps all other bits |
| `Blocks.SizeBits` | src/malloclab-handout/segregate.c:17 | GET_SIZE clears bits 0 to 2 and keeps all other bits |
| `Blocks.AllocBit` | src/malloclab-handout/segregate.c:18 | GET_ALLOC is bit 0 |
| `Blocks.AlignBits` | src/malloclab-handout/utils.h:8 | ALIGN clears bits 0 to 2 of the size plus 7 |
| `Blocks.BitsDetermine` | src/malloclab-handout/segregate.c:15-18 | a word is determined by its bits |
| `Blocks.AlignBounds` | src/malloclab-handout/utils.h:8 | ALIGN gives a multiple of 8 that is large enough and less than 8 larger |
| `Blocks.AlignLeast` | src/malloclab-handout/utils.h:8 | and the least such multiple |
| `LiveBlocks.MergedTiles` | src/malloclab-handout/segregate.c:275-305 | joining a block with its free neighbours leaves a tiling |
| `LiveBlocks.MergedApart` | src/malloclab-handout/segregate.c:275-305 | and no two adjacent free blocks |
| `LiveBlocks.MergedLiveMap` | src/malloclab-handout/segregate.c:387-388 | and the allocated blocks without the freed one |
| `LiveBlocks.MergeStartUnique` | src/malloclab-handout/segregate.c:275-305 | where a block and its free neighbours start is determined by the heap |
| `LiveBlocks.PayloadsPlaced` | src/malloclab-handout/mdriver.c:404-430 | payloads of a tiled heap are aligned, inside it and pairwise disjoint |
| `Memory.ValueOfBytes` | src/malloclab-handout/segregate.c:34-35 | a number stored in n bytes is read back unchanged |
| `Memory.LittleEndian` | src/malloclab-handout/segregate.c:34-35 | the first byte of a word is the lowest one |
| `Memory.Memlib.constructor` | src/malloclab-handout/memlib.c:25-34 | an empty heap of MAX_HEAP bytes with unspecified contents |
| `Memory.Memlib.Clear` | src/malloclab-handout/memlib.c:39-42 | the region is zero and the heap empty |
| `Memory.Memlib.ResetBrk` | src/malloclab-handout/memlib.c:54-56 | the heap is empty, memory unchanged |
| `Memory.Memlib.Sbrk` | src/malloclab-handout/memlib.c:63-73 | the old brk, and brk advanced; -1 exactly for a negative or too large request, and then brk unchanged |
| `Memory.Memlib.Load32` | src/malloclab-handout/segregate.c:35 | the word at an address |
| `Memory.Memlib.Store32` | src/malloclab-handout/segregate.c:34 | that word reads back, no other byte changes |
| `Memory.Memlib.Load64` | src/malloclab-handout/segregate.c:70-71 | the pointer at an address |
| `Memory.Memlib.Store64` | src/malloclab-handout/segregate.c:73-74 | that pointer reads back, no other byte changes |
| `Memory.Memlib.Memset` | src/malloclab-handout/segregate.c:330 | exactly the given bytes are set |
| `Memory.Memlib.Memcpy` | src/malloclab-handout/implicit.c:539 | the destination gets the source's old bytes, also when it overlaps it from below |
| `Implicit.Allocator.Malloc` | src/malloclab-handout/implicit.c:396-419 | a block that was not allocated, with exactly the aligned size, and the exact heap and cursor; the lowest, next or best one as the strategy says, the next one being the first with room on the walk from behind the cursor; other payloads kept; grows exactly if no free block has room; NULL exactly for size 0 or when that is refused, and then heap and memory are unchanged; free blocks stay apart |
| `Implicit.Allocator.Free` | src/malloclab-handout/implicit.c:425-431 | exactly that block is no longer allocated, merged with its free neighbours; other payloads kept; free blocks stay apart |
| `Implicit.Allocator.Realloc` | src/malloclab-handout/implicit.c:439-587 | exactly the aligned size, common prefix of bytes and other payloads kept, and the exact heap and cursor; NULL as malloc; stays, slides or moves as the neighbours allow; NULL exactly for the prologue, free blocks and stuck requests, and then nothing changes; fatal exactly if the last block has to grow and memory is refused; free blocks stay apart exactly if no rest is split off before a free block |
| `Implicit.Allocator.ReallocSmaller` | src/malloclab-handout/implicit.c:481-502 | the block stays, shrunk by a free rest if smaller |
| `Implicit.Allocator.ReallocLarger` | src/malloclab-handout/implicit.c:512-577 | absorb, grow, slide or move, in this order; the branch for the last block is dead |
| `Implicit.Allocator.Absorb` | src/malloclab-handout/implicit.c:515-523 | the free block behind gives what is needed |
| `Implicit.Allocator.GrowTail` | src/malloclab-handout/implicit.c:524-531 | the last block grows in place, or is fatal exactly if memory is refused |
| `Implicit.Allocator.Slide` | src/malloclab-handout/implicit.c:537-546 | the block moves down into the free block before it with its bytes |
| `Implicit.Allocator.Move` | src/malloclab-handout/implicit.c:567-576 | a new block with the old bytes, the old one free; NULL exactly if the heap cannot grow |
| `Implicit.Allocator.Transfer` | src/malloclab-handout/implicit.c:572-573 | copying and freeing: the old bytes in the new block, the old one merged, other payloads kept |
| `Implicit.Allocator.Place` | src/malloclab-handout/implicit.c:89-120 | NULL exactly if the block is allocated or too small; else it is allocated with exactly the aligned size |
| `Implicit.Allocator.Carve` | src/malloclab-handout/implicit.c:108-117 | the tag writes that cut an allocated block out of a larger one complete the tiling |
| `Implicit.Allocator.FirstFit` | src/malloclab-handout/implicit.c:131-150 | the first block with room on a walk from heap_listp, which is the lowest; NULL exactly if there is none |
| `Implicit.Allocator.NextFit` | src/malloclab-handout/implicit.c:157-182 | the first block with room on a walk from the block behind the cursor to the end and from heap_listp on; terminates; NULL exactly if there is none |
| `Implicit.PickedWalk` | src/malloclab-handout/implicit.c:131-217 | each strategy's choice, in terms of these walks and of the sizes of the blocks |
| `Implicit.FirstMetInOrder` | src/malloclab-handout/implicit.c:157-182 | the order in which the wrapping walk meets blocks, in terms of addresses |
| `Implicit.Allocator.BestFit` | src/malloclab-handout/implicit.c:189-217 | the smallest free block with room, the lowest of those; NULL exactly if there is none |
| `Implicit.Allocator.FindFit` | src/malloclab-handout/implicit.c:224-237 | whatever the strategy, NULL exactly if no free block has room; the lowest, the next or the best block as the strategy says |
| `Implicit.Allocator.Coalesce` | src/malloclab-handout/implicit.c:248-285 | block and free neighbours become one free block; the next-fit cursor is a block again |
| `Implicit.Allocator.ExtendHeap` | src/malloclab-handout/implicit.c:296-315 | NULL exactly if the size is not positive or refused; else only brk and the old end marker change |
| `Implicit.Allocator.DoMalloc` | src/malloclab-handout/implicit.c:322-362 | the free last block, or a new one, grows to the request; NULL exactly if it cannot |
| `Implicit.Allocator.Claim` | src/malloclab-handout/implicit.c:352 | tagging the grown last block completes the tiling |
| `Implicit.Allocator.Init` | src/malloclab-handout/implicit.c:372-389 | on zeroed memory the four stores establish the invariant; fatal exactly if memory is refused |
| `Implicit.NotTail` | src/malloclab-handout/implicit.c:562 | a block that does not end at brk is not TAIL_BLK |
| `ImplicitHeap.ReadEnd` | src/malloclab-handout/implicit.c:46 | EB holds exactly at the end of the heap, which reads as free once a block exists |
| `ImplicitHeap.CarveStores` | src/malloclab-handout/implicit.c:115-117 | cutting keeps the tiling, the other payloads and the front's bytes |
| `ImplicitHeap.GrowStores` | src/malloclab-handout/implicit.c:312-352 | rewriting the old end marker and tagging the last block extends the tiling, with a zero end word |
| `ImplicitHeap.CoalesceStore` | src/malloclab-handout/implicit.c:276 | the final tag write completes the merged tiling |
| `ImplicitHeap.Slid` | src/malloclab-handout/implicit.c:539-543 | after sliding, the old bytes start at the previous block and no other live payload has changed |
| `ImplicitHeap.CarvedApart` | src/malloclab-handout/implicit.c:495-499 | cutting keeps free blocks apart exactly if there is no rest or no free block follows |
| `ImplicitHeap.SlideApart` | src/malloclab-handout/implicit.c:537-543 | the same for sliding, in terms of the heap before |
| `ImplicitTheorems.LivePlaced` | src/malloclab-handout/implicit.c:26-76 | live payloads are aligned, inside the heap and pairwise disjoint |
| `ImplicitTheorems.MemoryDeterminesHeap` | src/malloclab-handout/implicit.c:56-68 | the blocks can be read off the memory in one way only |
| `ImplicitTheorems.HeapAccounted` | src/malloclab-handout/implicit.c:372-389 | after any operation, a walk from heap_listp visits all blocks, and their sizes and the fixed prefix add up to the heap size |
| `ImplicitTheorems.StepsUndo` | src/malloclab-handout/implicit.c:67-68 | on its blocks, stepping forward by the header and back by the footer are inverse |
| `ImplicitTheorems.MovesWhere` | src/malloclab-handout/implicit.c:481-577 | a resized block stays exactly if it shrinks, is the last or can absorb the block behind it; else it slides down exactly if the free block before makes room; else it moves to the end |
| `ImplicitTheorems.RefusedAtEnd` | src/malloclab-handout/implicit.c:524-577 | it is fatal, or refused, exactly if it would have to grow at, or move to, the end of the heap and that cannot move |
| `ImplicitTheorems.NoRoomAtEnd` | src/malloclab-handout/implicit.c:336-350 | do_malloc fails exactly if the last block is allocated and there is no room behind it, or free and without room to grow, or already large enough |
| `ImplicitRuns.RefusedWithRoom` | src/malloclab-handout/implicit.c:336-341 | five calls on a fresh region, the last of which is a realloc that fails although a free block has room, under every strategy |
| `ImplicitRuns.ShrinkLeavesNeighbours` | src/malloclab-handout/implicit.c:491-499 | four calls on a fresh region that leave two adjacent free blocks, under every strategy |
| `ImplicitRuns.Start` | src/malloclab-handout/implicit.c:372-389 | initialisation on a fresh region |
| `ImplicitRuns.Append` | src/malloclab-handout/implicit.c:396-419 | a request while nothing is free appends a block at the end of the heap |
| `Sampler.KBestSampler.InitSampler` | src/malloclab-handout/fcyc.c:50-62 | no samples |
| `Sampler.KBestSampler.AddSample` | src/malloclab-handout/fcyc.c:67-88 | the array holds the k smallest of the samples and the new value, in order |
| `Sampler.KBestSampler.HasConverged` | src/malloclab-handout/fcyc.c:93-98 | exactly the stopping rule on the samples so far |
| `Sampler.KBestSampler.Fcyc` | src/malloclab-handout/fcyc.c:129-168 | runs at least once and at most max(1, maxsamples) times; stops at the first convergence and not before; returns the smallest measurement |
| `Sampler.KBestIsBest` | src/malloclab-handout/fcyc.c:67-88 | the k best are ordered, are samples, and no other sample is smaller than one of them |
| `Sampler.KBestStep` | src/malloclab-handout/fcyc.c:70-88 | dropping a value that is no smaller than the k-th loses nothing |
| `Sampler.SortPermutes` | src/malloclab-handout/fcyc.c:81-87 | insertion sorting keeps the samples as a multiset |
| `Sampler.SortOrdered` | src/malloclab-handout/fcyc.c:81-87 | and puts them in order |
| `Sampler.CountKBest` | src/malloclab-handout/fcyc.c:97 | the k-th smallest sample is at most b exactly if k samples are |
| `Sampler.ConvergedIff` | src/malloclab-handout/fcyc.c:95-97 | converged exactly if k samples are at most (1+epsilon) times the smallest |
| `Sampler.SmallestIsMinimum` | src/malloclab-handout/fcyc.c:162 | values[0] is a sample and no sample is below it |

## Left out

- Segregate.Allocator.Malloc: for sizes 1 to 8 it requires slot 0 to be null or to point to a free block or to an allocated one of 16 bytes. Any other pointer in it leads to the inside of a block, or to a larger block in use (`SlotZero.StaleByFree`), and the C code would read user data as tags and links. Size 0 is excluded: its block has no room for a link.
- Segregate.Allocator.FreelistAlloc: the same for slot 0.
- Segregate.Allocator.Realloc: where the C code copies to NULL because malloc failed, the model returns `fault` with the state unchanged.
- Implicit.Allocator.Realloc: the C code ignores a refusal while it grows the last block (implicit.c:527) and writes tags beyond the heap; the model returns `fault` with the state unchanged, and says exactly when. The same holds for GrowTail and ReallocLarger.
- Implicit.Allocator.Malloc: when it fails under next fit, the C code stores a NULL cursor; the contract then promises no cursor, and further calls require one.
- Implicit.Allocator.Init: requires zeroed memory and that the word below the region, which extend_heap reads as a header, has size 0; it is overwritten (implicit.c:312). A refusal, which the C code does not notice (implicit.c:373), is a `fault`.
- Memory.Memlib.Memcpy: overlapping copies are made upwards, one byte after the other; the C standard leaves them undefined.
- Driver.Evaluation.EvalMmValid: traces are well formed: frees and reallocs name live ids, a realloc of a never-used id stands for a malloc, malloc sizes exceed 8, realloc sizes are positive, and sizes stay 32 below 2^31.
- ImplicitDriver.Evaluation.EvalMmValid: the same with positive malloc sizes, on a region that mem_clear has zeroed (mdriver.c:581) and that no block-like word precedes.
- ImplicitDriver.Evaluation.Begin: likewise. The main program clears the region only after an accepted trace (mdriver.c:315), so that the trace after a rejected one starts on used memory; what the implicit allocator then takes for its end marker is not modelled.
- Machine pointer width and wrap-around of sizes: addresses are unbounded below 2^64, sizes are bounded as stated in the contracts.
- errno is a flag that remembers that mem_sbrk refused; its error message is left out.
- Floating point: samples and the tolerance are real numbers, and a run of the timed function is an arbitrary real.
- Reading traces, option parsing, printing, debugging dumps and the performance index.
- The evaluation of libc malloc and eval_mm_speed: calls to unseen code, and timing.
- clock.c, ftimer.c, fsecs.c and the cache clearing and tick compensation of fcyc.c: hardware and operating-system timers.
- mm.c: it selects an allocator at compile time.

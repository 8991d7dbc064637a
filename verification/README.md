# N-API host runtime: a model and its proofs

The repository runs N-API guests (WebAssembly programs that use Node's N-API) against a V8 or
QuickJS engine. This project models the parts of it whose correctness depends on long runs,
interleavings or arithmetic at the edges, and proves what they promise.

| file | what it models | core of the repository |
|---|---|---|
| `Teardown.dfy` | releasing an agent while finalizers run guest code and other threads terminate or interrupt it: an interleaving of one owner thread, a stack of activations, and any number of foreign threads, with the registry lock held explicitly | `src/napi_bridge_init.cc` |
| `BridgeAgent.dfy` | value ids, the slot table, scope frames, guest callbacks, finalizers and interrupts; the guest is an arbitrary tree of actions | `src/napi_bridge_init.cc` |
| `EnvRegistry.dfy` | `terminate_all` and `terminate_app_env` against creation, commit and release of envs, interleaved | `src/ctx.rs`, `src/env.rs` |
| `IntrusiveLink.dfy`, `SlabAllocator.dfy`, `SlabIteration.dfy`, `BlockAddress.dfy` | intrusive circular lists, the slab allocator with re-entrant destructors, its iterator and counts, and block addresses | `lib/src/napi_intrinsic_link.h`, `lib/src/napi_allocator.h` |
| `ChargeSteps.dfy` | the lock-free byte accountant, one atomic operation at a time | `src/budget.rs` |
| `HeapReservations.dfy` | env reservations and near-heap-limit grants, interleaved | `src/budget.rs`, `src/env.rs` |
| `SharedBudget.dfy`, `BudgetedMemories.dfy` | charges as single calls on one ledger (unlimited, limited, or with an embedder's accountant), and the linear memories charged to it | `src/budget.rs` |
| `GuestHeap.dfy` | the guest-memory allocator on one of those memories, interleaved with the guest's own memory growth | `src/guest_heap.rs` |
| `Utf8Decoder.dfy`, `BigIntWords.dfy`, `Latin1Text.dfy` | text and BigInt conversion | `quickjs/src/js_native_api_quickjs.cc`, `lib/src/napi_text.cc` |
| `Basics.dfy` | `Option`, used by the others | |

How the model is put together:

- Concurrent protocols are step systems. A state holds the shared fields and what each thread
  does next; a step is one access under a lock, one atomic operation or one engine call. A run is
  any sequence of steps, and the main results are about every state of every run.
- Sequential objects are classes with the source's fields. Methods state the whole new state, and
  the invariant is a predicate on the fields (`StateOk`, `ShapeOk`, `LayoutOk`, `BooksOk`), kept by
  lemmas about values.
- Links of intrusive lists are addresses in one space with a `next` and a `prev` stored at each;
  `link` and `unlink` change those four entries as the source does. Reading an owner off the
  address of its link, the source's `unsafe_get`, is reading a component of the address.
- What cannot be seen is a contract whose answers are parameters or arbitrary choices: the engine
  opens scopes with handles that no open scope has (a closed one may have had them), escaping yields
  a value or fails, BigInt printing is exact; the offset allocator returns a free region that is large enough or nothing, but serves an
  empty chunk with room for a request rounded up by an eighth; whether the engine grows a memory is a
  parameter.
- `ghost` arguments named `d` are the height of the frame stack that the guest cannot get below:
  the frame under it is an implicit one, which has no id the guest could close.

Four statements hold in a form that needs care:

- "After a terminate sets `stop_requested` no guest code starts" is true of admission: no guest
  call is let in afterwards (`Teardown.NothingIsLetInAfterStop`). A call let in earlier may not
  have run its first instruction yet; it is covered because the engine is told to terminate after
  the last admission (`Teardown.StopReachesRunningGuest`).
- "A refill that succeeds lets the retry succeed" is false for an empty memory: a claim of all
  65536 pages is recorded with length 0, since the length is cut to 32 bits
  (`GuestHeap.WholeMemoryChunkIsEmpty`). `GuestHeap.Heap.AllocWithStore` says exactly when it
  holds: the retry succeeds if and only if the memory had a page before or the chunk asked for is
  at least one page short of 4 GiB. `GuestHeap.WholeMemoryClaimFails` reaches the other case.
- "The guest heap's pages are counted once against the budget" (the comment at
  `src/budget.rs:239-249`) is false of the configuration without an accountant that the repository
  installs: its memory is budgeted (`src/cli.rs:73-89`, `src/budget.rs:846-870`), so the heap charges
  a claim (`src/guest_heap.rs:532-543`) and `memory.grow` charges the same bytes again
  (`src/budget.rs:666-689`). The first arena claims 289 pages and the pool rises by 578
  (`GuestHeap.PrefundIsCountedTwice`). `GuestHeap.Heap.CountedOnceIff` says when it holds: exactly
  if one and only one of "something meters the memory's growth (an embedder, or the memory being
  budgeted)" and "the heap charges for itself" applies; so without an accountant, exactly if the
  memory is not budgeted.
- "Comparing decimal texts compares the numbers" (`lib/src/napi_text.cc:7-17`) depends on the
  maximum. `BigIntWords.ComparesNumbersIff` says which do: those that are not empty and have a
  leading zero only before nines. The maxima the callers pass have no leading zero.

Where the code departs from its comments, the code is followed: reading back a BigInt created
from no words, or from zero words only, gives one zero word; a callback that finds no frames at
all leaves the lazily created root frame behind.

## Model

| member | source | states |
|---|---|---|
| `Teardown.EngineCallsReachALiveIsolate` | src/napi_bridge_init.cc:3575-3627 | In every state of every interleaving, a thread inside the engine's terminate or request-interrupt finds the isolate alive, the env registered and the agent allocated. |
| `Teardown.IsolateFreedIdle` | src/napi_bridge_init.cc:638-720 | The isolate is freed in a state where neither `guest_calls` nor `teardown_guest_calls` counts anything, and neither does afterwards. |
| `Teardown.NothingIsLetInAfterStop` | src/napi_bridge_init.cc:312-333 | Once `stop_requested` is set it stays set on a closing agent, and the number of guest calls let in never grows again. |
| `Teardown.StopReachesRunningGuest` | src/napi_bridge_init.cc:3575-3589 | With a stop requested and no terminate call about to be made, guest code running inside teardown has been terminated since it was let in. |
| `Teardown.RequestsFreedOnce` | src/napi_bridge_init.cc:3010-3050 | An interrupt request that anybody still holds or that is queued has not been freed; when the agent is gone exactly the requests ever made have been. |
| `Teardown.StepKeeps` | src/napi_bridge_init.cc:638-720 | Every step of owner or foreign threads keeps the invariant: who holds the lock, both call counts equal the activations on the owner's stack, the release phase matches the flags, and requests are conserved. |
| `Teardown.RunKeepsInv` | src/napi_bridge_init.cc:638-720 | The invariant holds in every state of every run. |
| `Teardown.OnlyTheRelease` | src/napi_bridge_init.cc:638-720 | Once the isolate is gone, the release is the only activation left on the owner thread and both counts are zero. |
| `Teardown.NothingBelow` | src/napi_bridge_init.cc:638-650 | A release that has passed its checks has no activation below it on the owner's stack. |
| `BridgeAgent.IdDecodes` | src/napi_bridge_init.cc:92-100 | A value id is a nonzero 32-bit number from which its slot and its 12-bit generation are read back. |
| `BridgeAgent.IdResolves` | src/napi_bridge_init.cc:450-477 | An id minted for a slot resolves exactly when the slot is in use and has been freed a multiple of 4096 times since; if never, to the very value minted. |
| `BridgeAgent.ResolvedIsMinted` | src/napi_bridge_init.cc:450-464 | Whatever id resolves names the slot's present generation, and yields the value last minted into that slot. |
| `BridgeAgent.SlotsPartition` | src/napi_bridge_init.cc:402-507 | Free list and frames partition the slots: a slot is free once, or in use and owned once by exactly one frame; the live count is the number in use and within the limit. |
| `BridgeAgent.StoreKeeps` | src/napi_bridge_init.cc:419-444 | Storing keeps the table invariant, whichever frame takes ownership, and never reuses a slot in use. |
| `BridgeAgent.FreeKeeps` | src/napi_bridge_init.cc:469-492 | Freeing a slot that a closing frame owned keeps the table invariant for what remains to be freed. |
| `BridgeAgent.Agent.StoreValueInFrame` | src/napi_bridge_init.cc:419-444 | Exact new table and frames; 0 exactly for a null value or env, a reached limit, or a full table; anything else is an id of the slot taken. |
| `BridgeAgent.Agent.StoreValue` | src/napi_bridge_init.cc:446-448 | The id returned loads the value stored, and its slot is owned by the innermost frame, the root if there was none. |
| `BridgeAgent.Agent.FreeValueSlot` | src/napi_bridge_init.cc:469-477 | Retires the slot's id by bumping its generation modulo 4096; a slot not in use is left alone. |
| `BridgeAgent.Agent.PopCurrentFrame` | src/napi_bridge_init.cc:482-507 | Frees exactly the slots of the innermost frame, closes its scope through the env that opened it, keeps its buffer if small, and leaves the frames below alone. |
| `BridgeAgent.Agent.PushScopeFrame` | src/napi_bridge_init.cc:402-415 | The frame goes on top of the root at least and takes over the last spare buffer, which is empty. |
| `BridgeAgent.Agent.FindFrameById` | src/napi_bridge_init.cc:594-602 | The innermost frame with that guest-visible id, or -1; 0 finds nothing. |
| `BridgeAgent.Agent.OpenHandleScope` | src/napi_bridge_init.cc:2246-2259 | A new innermost frame with a nonzero 32-bit id and any engine handle no open scope has, or no change at all; an open frame has that id already exactly if it was opened a multiple of 2^32 - 1 openings before. |
| `BridgeAgent.ScopeIdsClash` | src/napi_bridge_init.cc:2255-2256 | Two scopes get the same id exactly if a multiple of 2^32 - 1 openings lie between them. |
| `BridgeAgent.ScopeCounterSteps` | src/napi_bridge_init.cc:2255-2256 | The 32-bit counter that skips 0 after wrapping gives scope after scope the ids from 1 to 2^32 - 1 in turn. |
| `BridgeAgent.Agent.CloseHandleScope` | src/napi_bridge_init.cc:2261-2276 | Succeeds exactly when the named scope is the innermost frame and of the right kind, and then pops just that frame. |
| `BridgeAgent.Agent.EscapeHandle` | src/napi_bridge_init.cc:2308-2329 | Succeeds exactly when the innermost frame of that id is escapable and not the root, the value loads and the engine escapes it; the new id is owned by the frame around that scope. |
| `BridgeAgent.Agent.GuestCallback` | src/napi_bridge_init.cc:3055-3147 | Without host data, a known env, an admitted call, a callback context, a registration or a callback info: undefined, and nothing changed. Otherwise, for every guest behaviour, if the implicit scope opened, the call returns with the frame stack as it found it (only owned slots may grow, and only by escaping), the engine saw a balanced word, and the result is the escaped value. |
| `BridgeAgent.Agent.GuestFinalizer` | src/napi_bridge_init.cc:1755-1790 | The same for finalizers and interrupts, whose unwinding loop ends without taking the root frame; a call that is not let in changes nothing. |
| `BridgeAgent.Agent.RegisterInvocation` | src/napi_bridge_init.cc:370-377 | Pushes a call record with a nonzero 32-bit id, from a counter that skips 0 after wrapping; none without a callback info. |
| `BridgeAgent.Agent.EraseInvocation` | src/napi_bridge_init.cc:3115-3119 | Removes exactly the last record of the id, wherever it is, and nothing if there is none. |
| `BridgeAgent.Agent.UnwindCallback` | src/napi_bridge_init.cc:3120-3142 | The unguarded loop of a callback stops at its own implicit frame and pops that last. |
| `BridgeAgent.Agent.UnwindPlain` | src/napi_bridge_init.cc:3040-3047 | The guarded loop of finalizers and interrupts ends at the implicit frame as well. |
| `BridgeAgent.Agent.Run` | src/napi_bridge_init.cc:2246-2329 | Any sequence of guest actions behind a barrier keeps the frames below it, nests its scopes above it, restores the call records, and only adds to the history of ids. |
| `BridgeAgent.Agent.Drain` | src/napi_bridge_init.cc:638-668 | Draining frees every value and closes every scope: over the agent's whole life the engine saw a balanced word. |
| `BridgeAgent.GuestCallReturns` | src/napi_bridge_init.cc:3055-3147 | Entering, running and unwinding compose to a clean return, for any guest. |
| `BridgeAgent.BalancedIsReplay` | src/napi_bridge_init.cc:482-507 | A word of scope events is properly nested exactly when a stack machine that accepts only closes of the innermost scope, by its own env, ends empty. |
| `BridgeAgent.EffectTrans` | src/napi_bridge_init.cc:2246-2329 | What two actions do above a barrier is again confined above it. |
| `BridgeAgent.EffectBelow` | src/napi_bridge_init.cc:2246-2329 | What stays above a barrier stays above every lower one. |
| `EnvRegistry.StopReachesEveryEnv` | src/ctx.rs:108-118 | Once a `terminate_all` has returned, every env still registered whose commit passed its locked check has been sent a terminate. |
| `EnvRegistry.RegisteredStaysAllocated` | src/env.rs:422-460 | A registered pointer has a holder, so it is allocated, and no other id names it. |
| `EnvRegistry.TerminatingSeesRegistered` | src/ctx.rs:108-118 | What a `terminate_all` under way has still to visit is in the registry as it is now. |
| `EnvRegistry.IdsAreNeverReused` | src/env.rs:422-460 | An env id, once registered, never names another env. |
| `EnvRegistry.StepKeepsInv` | src/env.rs:302-326 | Every step of any thread keeps holders exact, the registry exact, and the stop on its way to every env. |
| `EnvRegistry.RunKeepsInv` | src/env.rs:302-326 | The invariant holds in every state of every run. |
| `IntrusiveLink.LinkSpace.Link` | lib/src/napi_intrinsic_link.h:25-33 | Exactly one list changes: the link is now its first member; all circles stay well formed. |
| `IntrusiveLink.LinkSpace.Unlink` | lib/src/napi_intrinsic_link.h:35-43 | Exactly one list loses exactly that member, which points to itself again. |
| `IntrusiveLink.LinkSpace.First` | lib/src/napi_intrinsic_link.h:45-53 | The first member, or none exactly for an empty list. |
| `IntrusiveLink.LinkSpace.Contains` | lib/src/napi_intrinsic_link.h:55-63 | True exactly for members of the list. |
| `IntrusiveLink.LinkSpace.Count` | lib/src/napi_intrinsic_link.h:65-71 | The length of the list. |
| `IntrusiveLink.LinkKeeps` | lib/src/napi_intrinsic_link.h:25-33 | The four pointer assignments of `link` keep every list a well-formed circle, disjoint from the others. |
| `IntrusiveLink.UnlinkKeeps` | lib/src/napi_intrinsic_link.h:35-43 | So do those of `unlink`, wherever in its list the link is. |
| `IntrusiveLink.LinkedIsInSome` | lib/src/napi_intrinsic_link.h:20-23 | `linked()` is true exactly of the links that are in some list. |
| `SlabAllocator.BlockInItsListOnly` | lib/src/napi_allocator.h:478-499 | Between operations every block is in the one list that matches its occupancy and no other, or in none if a `destroy` in progress holds it. |
| `SlabAllocator.SlotInOneList` | lib/src/napi_allocator.h:356-370 | A slot link that is in a list is in its own block's list, once, on the side its state says; a slot in transit is in neither. |
| `SlabAllocator.PickHasRoom` | lib/src/napi_allocator.h:70-84 | Whatever the partial or the free list offers has a free slot. |
| `SlabAllocator.Allocator.PickBlock` | lib/src/napi_allocator.h:70-84 | The first partial block, else the first free one, else a new one; always one with a free slot, and none only without memory. |
| `SlabAllocator.Allocator.Allocate` | lib/src/napi_allocator.h:70-91 | A slot without a payload gets a new one and nothing else changes, also inside another payload's destructor. |
| `SlabAllocator.Allocator.Destroy` | lib/src/napi_allocator.h:110-127 | For every destructor, whatever it allocates, takes or destroys: the payload is destroyed once, its slot ends first in the free list, and slots and blocks that outer calls hold are as before. |
| `SlabAllocator.Allocator.Run` | lib/src/napi_allocator.h:110-127 | Whatever a destructor calls, nested to any depth, leaves the slots in transit and the blocks held by outer calls alone, and calls no destructor twice. |
| `SlabAllocator.Allocator.TakeUsed` | lib/src/napi_allocator.h:130-152 | Releases one live payload without destroying it; none only if every live payload is in a block some `destroy` holds. |
| `SlabAllocator.Allocator.PickUsed` | lib/src/napi_allocator.h:130-143 | The first full block, else the first partial one; either has a live payload. |
| `SlabAllocator.Allocator.LinkBlock` | lib/src/napi_allocator.h:486-499 | The block goes to the list that matches its occupancy; slot lists are untouched. |
| `SlabAllocator.Allocator.ResetFreeList` | lib/src/napi_allocator.h:441-454 | Both slot lists are rebuilt: nothing used, all slots free in ascending order. |
| `SlabAllocator.Allocator.CloseBlock` | lib/src/napi_allocator.h:372-383 | Destroys each payload of the block once and no other payload. |
| `SlabAllocator.Allocator.Close` | lib/src/napi_allocator.h:161-186 | Every live payload is destroyed exactly once, nothing else is, no block is left, and creates equal releases. |
| `SlabAllocator.SlotMoveKeeps` | lib/src/napi_allocator.h:356-370 | Moving one slot link of a block that is held or worked on keeps the shape of everything else. |
| `SlabAllocator.NewBlockKeeps` | lib/src/napi_allocator.h:314-317 | A new block with all slots free fits in with the rest. |
| `SlabIteration.Visit` | lib/src/napi_allocator.h:215-224 | A full traversal ends and has visited each live payload exactly once; their number is creates less releases. |
| `SlabIteration.Cursor.Next` | lib/src/napi_allocator.h:546-558 | One step passes exactly the slot the iterator stood on. |
| `SlabIteration.Cursor.SelectUsedSlot` | lib/src/napi_allocator.h:582-606 | Skips blocks without used slots, crosses from the used to the partial list, and passes nothing. |
| `SlabIteration.CountActive` | lib/src/napi_allocator.h:202-212 | The number of live payloads, though full blocks are counted as N without looking. |
| `SlabIteration.WalkIsUsed` | lib/src/napi_allocator.h:546-606 | Walking both lists block by block meets each live payload and nothing else, once. |
| `SlabIteration.FullBlock` | lib/src/napi_allocator.h:202-204 | A block in the used list has all of its N slots used. |
| `BlockAddress.NextPowerOfTwo` | lib/src/napi_allocator.h:239-247 | The least power of two that is no less than the argument, for any word width. |
| `BlockAddress.SlotFindsBlock` | lib/src/napi_allocator.h:322-326 | Masking any address inside an aligned block gives the start of that block. |
| `BlockAddress.MaskClears` | lib/src/napi_allocator.h:322-326 | Bitwise and with ones from bit k up removes exactly the low k bits. |
| `ChargeSteps.NeverOverBudget` | src/budget.rs:305-364 | In every state of every interleaving a limited budget is not exceeded, owned bytes are within the pools, the pools within `mem_charged`, and that within the embedder's share. |
| `ChargeSteps.AtRestAllAgree` | src/budget.rs:305-364 | With no thread inside, the pools hold exactly what is owned and all totals agree. |
| `ChargeSteps.NoCounterWraps` | src/budget.rs:305-364 | No 64-bit addition or subtraction on a counter wraps. |
| `ChargeSteps.SwapDecides` | src/budget.rs:320-350 | A refusal means the charge did not fit the value last read; a success means it fits the counter as it is now. |
| `ChargeSteps.AloneIsAtomic` | src/budget.rs:305-353 | A charge that nothing interrupts is one operation, all or nothing: limited, unlimited, or with an accountant that accepts or refuses. |
| `ChargeSteps.UnchargeIsAtomic` | src/budget.rs:355-364 | So is an uncharge, under all three kinds of budget, and no counter goes below zero. |
| `ChargeSteps.StepKeepsInv` | src/budget.rs:305-364 | Every atomic step keeps the balance between the counters and the bytes on their way. |
| `ChargeSteps.RunKeepsInv` | src/budget.rs:305-364 | The balance holds in every state of every run. |
| `SharedBudget.Ledger.TryCharge` | src/budget.rs:305-353 | The one operation of an uninterrupted charge: all of the bytes go to the one pool, and to the accountant if there is one, or nothing does. |
| `SharedBudget.Ledger.Uncharge` | src/budget.rs:355-364 | The one operation of an uninterrupted uncharge: exactly those bytes leave that pool, and the accountant if there is one. |
| `HeapReservations.PlanPaysForItself` | src/budget.rs:472-514 | A plan exists exactly if more than the fixed part remains; its ceiling is overhead, slack, young, code and old, within what remains, with 0 < old <= requested and clamped only when it takes all. |
| `HeapReservations.PoolIsWhatIsReserved` | src/budget.rs:409-466 | In every run, under a total of its own, an accountant that may refuse what fits, or no limit, the heap pool is the ceilings and grants of unreleased reservations, the isolate count counts them, and both stay within their limits. |
| `HeapReservations.AllReturned` | src/env.rs:553-602 | When every reservation was rejected or released, pool and count are zero. |
| `HeapReservations.RejectionRestores` | src/budget.rs:414-427 | In any run, whatever other envs do meanwhile, all that the steps of an env did to the pool and to the isolate count sums to zero once it is rejected, or its release has ended. |
| `HeapReservations.MovedIsHeld` | src/budget.rs:409-466 | In any run, all that the steps of an env ever added to either counter, less what they took, is what it holds at that moment. |
| `HeapReservations.LimitIsPaidFor` | src/budget.rs:548-580 | V8's current limit never exceeds initial, grants and one slack, and overhead, young, code and that limit never exceed what was charged for the env. |
| `HeapReservations.GrantOrStop` | src/budget.rs:558-579 | The callback charges the whole step it grants, or, if the step does not fit or an accountant refuses it, stops the application; only the first denial raises the limit, by the slack. |
| `HeapReservations.StoppedStays` | src/budget.rs:564-565 | After a first denial `host_stopped` stays set. |
| `HeapReservations.RefusedReleaseKeeps` | src/env.rs:553-562 | A refused release keeps the heap charge, the isolate slot and the tracker with what it has granted. |
| `HeapReservations.NextKeepsInv` | src/budget.rs:409-466 | Every step of any env keeps the sums, the limits and each env's heap limit, and never clears `host_stopped`. |
| `HeapReservations.RunKeepsInv` | src/budget.rs:409-466 | The invariant behind these holds in every state of every run. |
| `BudgetedMemories.Memories.New` | src/budget.rs:636-640 | A budgeted memory's size is charged, or it is refused and nothing is; refused exactly if the budget, of whatever kind, does not admit it. |
| `BudgetedMemories.Memories.Grow` | src/budget.rs:666-689 | Grows and charges by exactly the delta, or changes nothing; it grows exactly if the budget admits the delta and the backend has room. |
| `BudgetedMemories.Memories.GrowAtLeast` | src/budget.rs:691-723 | However much of the reserved target the backend uses, exactly the real growth stays charged; a failure leaves nothing charged. |
| `BudgetedMemories.Memories.Reset` | src/budget.rs:725-734 | What the backend freed is returned. |
| `BudgetedMemories.Memories.TryClone` | src/budget.rs:740-750 | Another handle costs nothing. |
| `BudgetedMemories.Memories.Copy` | src/budget.rs:752-762 | A copy is charged its own size. |
| `BudgetedMemories.Memories.Drop` | src/budget.rs:607-612 | Only the last handle returns the charge, all of it. |
| `BudgetedMemories.Memories.AllDropped` | src/budget.rs:589-612 | With all handles gone the pool holds what its other users hold. |
| `BudgetedMemories.ClonesCountOnce` | src/budget.rs:740-750 | The total does not depend on how many handles a memory has. |
| `GuestHeap.LiveDisjoint` | src/guest_heap.rs:464-496 | Two live allocations never overlap. |
| `GuestHeap.LiveInsideChunk` | src/guest_heap.rs:464-496 | A live allocation is 16-byte aligned, inside its chunk and inside the memory. |
| `GuestHeap.Heap.LiveIsNotGuests` | src/guest_heap.rs:558-588 | No byte of a live allocation is on a page the guest claimed for itself, however the two grew the memory. |
| `GuestHeap.OfferFits` | src/guest_heap.rs:464-486 | None of the 32-bit products and sums overflows, the subtraction from the free bytes does not saturate, and the offset is new. |
| `GuestHeap.Packing` | src/guest_heap.rs:464-486 | Disjoint regions inside a chunk add up to no more than the chunk. |
| `GuestHeap.AllocKeeps` | src/guest_heap.rs:464-496 | An allocation keeps chunks, live table and free-byte count in agreement. |
| `GuestHeap.FreeKeeps` | src/guest_heap.rs:593-608 | So does a free, of any live allocation. |
| `GuestHeap.ClaimKeeps` | src/guest_heap.rs:558-588 | So does a new chunk behind all the others. |
| `GuestHeap.ChunkHasRoom` | src/guest_heap.rs:155-160 | A chunk sized for a request serves it after bin rounding, exactly unless its length is 2^32 and does not fit 32 bits. |
| `GuestHeap.WholeMemoryChunkIsEmpty` | src/guest_heap.rs:578-585 | A request of nearly 4 GiB claims 65536 pages, whose length in 32 bits is 0. |
| `GuestHeap.WholeMemoryClaimFails` | src/guest_heap.rs:427-462 | On an empty memory whose first arena could not be claimed, an allocation of 0xF0000000 bytes claims all 65536 pages and still fails. |
| `GuestHeap.Heap.TryChunks` | src/guest_heap.rs:464-496 | Takes one region some chunk offers, or changes nothing; an empty chunk with room is not passed over. |
| `GuestHeap.Heap.Alloc` | src/guest_heap.rs:397-420 | A new live entry long enough for the request, or only the pending want grows. |
| `GuestHeap.Heap.AllocWithStore` | src/guest_heap.rs:427-462 | Fails without a refill only if the request is too large or the refill it needs cannot be made; without a refill it is served from a chunk claimed before; after one it succeeds if and only if the memory was not empty or the chunk is short of the whole memory; a failed refill costs nothing. |
| `GuestHeap.Heap.Refill` | src/guest_heap.rs:511-556 | Goes through exactly if the store owns the memory, the budget admits both the heap's charge and a budgeted memory's, and the memory grows; then claims and records one chunk and raises the pool by both charges, and otherwise changes nothing at all. |
| `GuestHeap.Heap.Create` | src/guest_heap.rs:265-318 | The heap starts with one chunk, of the arena's pages, exactly if the memory and the budget had room for it, and without any otherwise. |
| `GuestHeap.Heap.PoolEquation` | src/budget.rs:666-689 | In every state the pool is what it was when the heap was made, plus what the heap charged, plus what a budgeted memory grew by (heap and guest alike), plus what everybody else was charged since. |
| `GuestHeap.Heap.CountedOnceIff` | src/budget.rs:239-249 | The pages the heap claimed are counted once if and only if exactly one of "something meters the memory's growth" and "the heap charges for itself" applies; without an accountant a budgeted memory has them counted twice. |
| `GuestHeap.PrefundIsCountedTwice` | src/cli.rs:73-89 | With a budgeted memory and no accountant the first arena claims 289 pages and raises the pool by 578. |
| `GuestHeap.CountedTwiceFromTheStart` | src/cli.rs:73-89 | From an unlimited budget on: a memory of one page and its heap end with 290 pages, and the pool with 579. |
| `GuestHeap.LinearMemory.Grow` | src/budget.rs:666-689 | Growth by the heap and by the guest are the same operation: a budgeted memory is charged for either, and a failure costs nothing. |
| `GuestHeap.Heap.MaybeRefill` | src/guest_heap.rs:502-509 | Refills exactly when free space is low or something is wanted and a refill can be made, by the larger of that want and the arena size. |
| `GuestHeap.Heap.FreeOffset` | src/guest_heap.rs:593-608 | Frees exactly a live allocation; an unknown, interior or repeated offset changes nothing. |
| `GuestHeap.Heap.FreeHostPtr` | src/guest_heap.rs:613-633 | Frees exactly when the address is the start of a live allocation that is long enough. |
| `GuestHeap.Heap.HostRange` | src/guest_heap.rs:351-372 | The cached length gives the answer the memory's own length would, and never decreases; what is granted is within the maximum. |
| `GuestHeap.Heap.GuestGrows` | src/budget.rs:666-689 | The guest growing its memory between any two operations keeps the heap valid; the pool rises by that growth exactly if the memory is budgeted. |
| `GuestHeap.Heap.Drop` | src/guest_heap.rs:653-660 | Lowers the pool by exactly what the heap charged, which is what it claimed unless an embedder accounts for it; what a budgeted memory was charged stays with the memory. |
| `Utf8Decoder.Decode` | quickjs/src/js_native_api_quickjs.cc:21-132 | For all byte strings, the UTF-16 form of what the UTF-8 decoder of section 8.1.1 of the WHATWG Encoding Standard emits with replacement, in no more units than bytes. |
| `Utf8Decoder.DecodeOne` | quickjs/src/js_native_api_quickjs.cc:37-112 | One round consumes what the standard consumes and emits the one code point it emits. |
| `Utf8Decoder.SequenceDecodes` | quickjs/src/js_native_api_quickjs.cc:37-112 | What the standard emits for a lead byte followed by j - 1 usable bytes: one replacement per maximal invalid part, truncated tails included. |
| `Utf8Decoder.GatheredRange` | quickjs/src/js_native_api_quickjs.cc:85-105 | The range test on the value and the test on the second byte agree on complete sequences. |
| `Utf8Decoder.WellFormedRoundTrip` | quickjs/src/js_native_api_quickjs.cc:21-132 | The UTF-8 form (section 3 of RFC 3629) of any scalar values decodes to exactly those, without replacement. |
| `Utf8Decoder.DecodeWellFormed` | quickjs/src/js_native_api_quickjs.cc:21-132 | So the method yields their UTF-16 form (section 2.1 of RFC 2781). |
| `BigIntWords.WordsFromDecimal` | lib/src/napi_text.cc:19-49 | Little-endian 64-bit words whose value is the magnitude of the digits, with no high zero word except for zero, and the sign. |
| `BigIntWords.TimesTenPlus` | lib/src/napi_text.cc:31-43 | One digit: ten times the words plus the digit, with at most one word more. |
| `BigIntWords.DecimalDigitsFit` | lib/src/napi_text.cc:7-17 | For any two texts: leading zeros dropped from the first, then by length, then by strcmp; which compares the numbers if the maximum is of the kind below. |
| `BigIntWords.ComparesNumbersIff` | lib/src/napi_text.cc:7-17 | It compares the numbers for every value if and only if the maximum is not empty and has a leading zero only before nines. |
| `BigIntWords.BuildLiteral` | quickjs/src/js_native_api_quickjs.cc:287-307 | The hex literal the engine is given evaluates to the sign and the words. |
| `BigIntWords.PaddedShifts` | quickjs/src/js_native_api_quickjs.cc:299-305 | Sixteen padded digits after a prefix shift its value by exactly one word. |
| `BigIntWords.CreateBigInt` | quickjs/src/js_native_api_quickjs.cc:256-315 | The argument errors, the range error beyond 1024 words, and otherwise the value of the words with the sign. |
| `BigIntWords.GetBigInt` | quickjs/src/js_native_api_quickjs.cc:1168-1203 | The sign, the full number of canonical words, and as many of them copied as the buffer takes; with a null buffer only sign and number. |
| `BigIntWords.CreateThenGet` | quickjs/src/js_native_api_quickjs.cc:256-315 | Create then get returns the words without high zero words, zero as one zero word, with the sign kept except on zero. |
| `BigIntWords.CanonicalUnique` | lib/src/napi_text.cc:19-49 | A word array without a high zero word is the only one of its value. |
| `Latin1Text.Latin1ToUtf8` | quickjs/src/js_native_api_quickjs.cc:733-762 | The first pass counts what the second writes, and that is the UTF-8 form of the characters. |
| `Latin1Text.Fill` | quickjs/src/js_native_api_quickjs.cc:746-760 | The second pass stays within the buffer sized by the first. |
| `Latin1Text.Utf8ToLatin1` | lib/src/napi_text.cc:51-74 | The UTF-8 form of any scalars yields each that fits a byte and a question mark for every other. |
| `Latin1Text.Latin1RoundTrip` | lib/src/napi_text.cc:51-74 | Converting any byte string to UTF-8 and back is the identity. |
| `Latin1Text.CompletePrefixLength` | lib/src/napi_text.cc:76-98 | On valid UTF-8 cut anywhere, the greatest code-point boundary not past the cut. |

## Left out

- BridgeAgent.Agent.Drain: the draining restarts the slot table, so that ids minted by finalizers after it can equal ids from before it; the history of ids is per table.
- SlabAllocator.Allocator.Allocate: payload constructors do not call back into the allocator, which the code does not provide for: while one runs, its block is still in the list of its old occupancy. Destructors do call back.
- SlabAllocator.Allocator.Close: destructors run by `close()` do not call back into the allocator, and no `destroy` is under way; a block that such a call filled would be linked into a list `close()` has finished with.
- SlabAllocator.Allocator.Destroy: a destructor that names a slot without a live payload makes no call, since no correct one does.
- GuestHeap.Heap.Refill: the check that a claimed range ends within the maximum appears as a proved assertion, and the abort on a moved base is not modelled.
- GuestHeap.Heap.Create: a memory without a stable base gets no heap, and is not modelled.
- GuestHeap.Heap.Drop: guest heap and memories are modelled sequentially, between other users' calls on the same budget; the memory outlives the heap.
- ChargeSteps.NeverOverBudget: atomic operations are sequentially consistent steps, and an unlimited budget is assumed to be asked for no more bytes than 64 bits hold.
- HeapReservations.PoolIsWhatIsReserved: one step is one call on the budget; the steps inside a charge are in `ChargeSteps.dfy`.
- Declared external memory (`napi_adjust_external_memory`), callback depth, session counts and the handle tables for references, deferreds and modules: one-line bookkeeping.
- V8 and QuickJS themselves, the release order inside the engine, and the offset allocator: contracts only.
- The one-call `snapi_bridge_*` wrappers, FFI layouts, the wasm32 backend, CLI, WASIX hooks and mount handling: no state of their own, or I/O.
- The clamping of memory maxima in the tunables, the zeroing of payloads and the logging of integrity complaints.

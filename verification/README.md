# Models of the mempool and networking libraries

This project models, in Dafny, the concurrent and stateful core of the libraries: the shared-memory pipe and
router of `MempoolIPC`, the memory pools of `MempoolIPC` and `MempoolHeap`, the session queues of `Networking`,
the named reference counts in shared memory, and the heartbeat announcement with its parser. Each object that the
source updates in place is a class; each of its methods is proved equal to a step function on values, and the
theorems are about all runs of those steps. What a state records of its past, such as an order of sends, a closed flag
or a number of loans, is tied to the events of the run (`TotalOrder`, `EventsDecide`, `StepsDecide`,
`QueuedAsSubmitted`).

`dafny verify dfyconfig.toml` checks the whole project.

## How the modules fit together

- `Ring.dfy` (`Common`, `PipeRing`): one pipe as a value and as the object `PipeIPC`; uninterrupted calls are
  enqueue and dequeue on a bounded queue.
- `PipeProtocol.dfy`, `PipeCalls.dfy`, `PipeSafety.dfy`, `PipeShutdown.dfy`, `PipeAccounts.dfy`: any number of
  senders, receivers and shutdowns on one pipe. Every semaphore operation, every locked section and every access to the
  atomic flag is a step of its own, and a run is any interleaving. `PipeProtocol` holds the invariant, `PipeCalls` shows
  that whole calls are runs of steps, `PipeSafety` what every run guarantees, `PipeShutdown` when delivery order
  survives a shutdown, and `PipeAccounts` what becomes of permits and of `operator bool`.
- `Router.dfy` (`PipeRouter`), `Broadcast.dfy`: the router's loop over weak pipe pointers as a method, and then
  that loop interleaved, step by step, with receivers, shutdowns, registrations and pipes that die.
- `FreeList.dfy`, `PooledHandles.dfy`, `Grower.dfy`: the shared-memory pool, the pair of pools behind a handle,
  and the pool that replaces itself by one twice as large.
- `AlignedMemory.dfy`, `ArrayPool.dfy`: the layout of a process-local pool, and the pool of arrays on top of it.
- `SendQueue.dfy`, `Pipelining.dfy`, `Framing.dfy`: the write queue with eviction, the HTTP/1.1 pipelining queue
  (section 6.3.2 of RFC 7230), and the header/body reader of raw TCP sessions. A strand's handlers are atomic
  steps; I/O completions come from the environment.
- `NamedObject.dfy`, `Heartbeat.dfy`: the reference count next to a named object, and the announcement.

## Where the code does not do what it says, or not always

Each of these is stated as a lemma, with the exact condition under which the promise holds.

- `operator bool` is documented as "not shut down, or elements queued". A receive that a shutdown wakes on an empty
  pipe takes one from an unsigned counter. Afterwards an empty pipe can look usable, and a pipe that holds as many
  elements as there were such receives looks unusable (`UsableExactly`, with runs for both in `EmptyLooksUsable` and
  `QueuedLooksUnusable`).
- What is queued when the flag is set is always delivered first and in order. Elements stored after that, by senders
  that were already past the second look at the flag, can be delivered out of order; order is certain exactly when
  those senders all carry the same element (`OrderAfterShutdownExactly`). With one router as the only sender there is
  at most one of them, which is what makes the broadcast order total. Receivers can also step over the slot of such an
  element, so that no permit is left with which to fetch it: every element has one in all continuations exactly if no
  sender was past the flag, or the pipe has a single slot (`AlwaysCoveredExactly`).
- The two pools behind a shared-memory handle have the same size, but a release returns the object first and the control
  block afterwards. A handle made in between can get an object and then find no control block; the allocator answers
  with a null address, which is not looked at (`ControlPoolExhaustedExactly`, `ControlPoolCanBeExhausted`). If an
  element's constructor throws, the object is never returned; the pools agree between calls exactly if none has
  (`QuiescentPools`).
- A growing pool makes more handles than its replaced pools held, in every run, exactly if elements hold at least one
  object and constructors cannot throw (`GrowthBoundExactly`). With zero objects per element every call replaces the pool
  (`EmptyElementsGrowForever`).
- Sizes are computed in 64 bits without a guard. The blocks of a shared pool lie inside their region exactly when the
  total size fits (`RegionHoldsBlocksExactly`); the region of a process-local pool is usable for every base address
  exactly when size and slack fit and the slack covers the alignment (`RegionIsUsableExactly`, with two failing sizes in
  `RegionWraps`); the framing reader stays inside its buffer exactly when the length callback never announces a body that
  does not fit together with the header (`StaysInsideExactly`, with a failing input in `OverrunHappens`).
- The array pool does not look whether the memory of its elements is null: elements are constructed inside it exactly if
  it was granted, aligned and fits (`SlotsInsideExactly`). If a constructor throws, unwinding destroys the whole slice,
  constructed or not; only constructed elements are destroyed in all runs exactly if constructors cannot throw, or
  elements are arithmetic, or there are none (`DestroysOnlyBuiltExactly`).
- A websocket session's destructor calls the handlers of what is still queued; an HTTP session's does not, and drops them
  (`DestructionCompletesExactly`, `HttpForgetsHandlers`).
- A named object whose constructor throws leaves a handle which was not counted and whose release is counted
  (`CountedExactly`, `SafeExactlyWithoutExceptions`).
- A heartbeat without ports parses without error, and the ports are 65535, because the casts in the parser bind to the
  condition of the `?:` (`TopicAloneIsAccepted`). A negative time is printed with a sign that the parser does not
  accept, and comes back as 0 (`RoundTrip`).

## Model

| member | source | states |
|---|---|---|
| PipeRing.PipeIPC.constructor | MempoolIPC/src/RouterIPC.h:53-71 | a new pipe has every slot reset, all permits on `nempty`, none on `nstored` |
| PipeRing.PipeIPC.Send | MempoolIPC/src/RouterIPC.h:92-135 | an uninterrupted Send, in all three wait modes: an error is reported, or the call waits, exactly on a full pipe that is not shut down, and then nothing changes; after a shutdown nothing changes and the answer is that of success; otherwise the element is in its slot, the push index has moved on and the permits are passed on |
| PipeRing.PipeIPC.Receive | MempoolIPC/src/RouterIPC.h:138-166 | an uninterrupted Receive: without a permit it times out or waits and nothing changes, shut down or not; otherwise the slot at the pop index is handed out and reset, and the permits are passed back |
| PipeRing.PipeIPC.Shutdown | MempoolIPC/src/RouterIPC.h:168-175 | the flag is set, both semaphores are posted once, and nothing else changes |
| PipeRing.FreshIsEmpty | MempoolIPC/src/RouterIPC.h:53-71 | a new pipe stands for the empty queue |
| PipeRing.PushAppends | MempoolIPC/src/RouterIPC.h:121-128 | a push with room left fills a reset slot and appends to the queue that the live window, going round the ring, holds |
| PipeRing.PopRemovesHead | MempoolIPC/src/RouterIPC.h:154-162 | a pop hands out the oldest element and leaves the queue without it, its slot reset |
| PipeRing.SendIsEnqueue | MempoolIPC/src/RouterIPC.h:92-135 | uninterrupted Send is enqueue on the bounded queue; on a full one it fails or waits and changes nothing |
| PipeRing.ReceiveIsDequeue | MempoolIPC/src/RouterIPC.h:138-166 | uninterrupted Receive is dequeue of the oldest element; on an empty one it times out or waits and changes nothing |
| PipeProtocol.RunningStep | MempoolIPC/src/RouterIPC.h:92-166 | every step of a pipe that is not shut down keeps permit accounting and the FIFO window; pushes find a reset slot, pops a filled one |
| PipeProtocol.SurplusStep | MempoolIPC/src/RouterIPC.h:92-175 | in any state only the posts of a shutdown, and a sender that keeps its permit because it sees the flag, change the balance of permits against elements and slots |
| PipeProtocol.FlagLeavesRunway | MempoolIPC/src/RouterIPC.h:168-175 | when the flag is set there is a reset slot for every sender past its second look at it |
| PipeProtocol.ShutdownStep | MempoolIPC/src/RouterIPC.h:117-175 | after the flag is set no sender joins those, and each step keeps enough reset slots ahead of the push index for the rest |
| PipeProtocol.InvRun | MempoolIPC/src/RouterIPC.h:92-175 | the invariant holds along every interleaving of sends, receives and any number of shutdowns |
| PipeSafety.PermitConservation | MempoolIPC/src/RouterIPC.h:92-166 | before shutdown, for any number of actors: `nempty`, permit holders, `size` and unposted receivers sum to the capacity, and `size` is `nstored`, unposted senders and woken receivers |
| PipeSafety.StepsDecide | MempoolIPC/src/RouterIPC.h:92-175 | in every run what is stored is what the callers of Send came with, every take hands out an element or comes back empty, and the flag is set exactly if a shutdown has set it |
| PipeSafety.FifoRefinement | MempoolIPC/src/RouterIPC.h:121-162 | before shutdown, received followed by queued is pushed, the live window holds the queue, all other slots are reset, and the push index is the pop index plus `size` modulo the capacity |
| PipeSafety.NoOverwrite | MempoolIPC/src/RouterIPC.h:92-175 | in every reachable state, also across shutdowns, no push overwrites an undelivered element, and pushed is received plus what the slots hold, as multisets |
| PipeSafety.QueuedBeforeShutdownIsDelivered | MempoolIPC/src/RouterIPC.h:138-175 | what was queued when the flag was set is delivered first, in FIFO order, and entirely before any receive comes back empty, whatever senders were in flight |
| PipeSafety.OrderKeptAfterShutdown | MempoolIPC/src/RouterIPC.h:117-175 | if the senders past the flag all carry one element, received stays a prefix of pushed in every continuation |
| PipeShutdown.OrderBreaksAfterShutdown | MempoolIPC/src/RouterIPC.h:117-175 | from any state with two such senders carrying different elements, a run exists that delivers out of order |
| PipeShutdown.OrderAfterShutdownExactly | MempoolIPC/src/RouterIPC.h:117-175 | delivery stays in order in every continuation of a shutdown if and only if those senders carry the same element |
| PipeAccounts.PermitsAcrossShutdown | MempoolIPC/src/RouterIPC.h:92-175 | in every reachable state, also across shutdowns: permits for elements are the elements held plus the shutdowns' posts less the empty receives, and likewise for slots, less the permits that senders kept |
| PipeAccounts.AlwaysCoveredExactly | MempoolIPC/src/RouterIPC.h:117-175 | in every continuation of a shutdown empty receives do not outnumber the posts, so that each element held has a permit, if and only if no sender was past the flag or the pipe has one slot |
| PipeAccounts.UsableExactly | MempoolIPC/src/RouterIPC.h:177-181 | the documented meaning of `operator bool` holds in a reachable state if and only if the pipe runs, or the empty receives are 0 modulo the word, or elements are queued and differ in number from them |
| PipeAccounts.EmptyLooksUsable | MempoolIPC/src/RouterIPC.h:160-181 | from every state in which a pipe can be shut down, a run ends with an empty pipe that looks usable |
| PipeAccounts.QueuedLooksUnusable | MempoolIPC/src/RouterIPC.h:160-181 | and, if a sender was past the flag, one ends with a pipe that holds an element and looks unusable |
| PipeAccounts.WakeUpLooksUsable | MempoolIPC/src/RouterIPC.h:160-181 | shutting down an idle empty pipe and receiving once leaves a counter of all ones and a pipe that looks usable |
| PipeCalls.SendIsARun | MempoolIPC/src/RouterIPC.h:92-135 | the method's Send is the run of one actor's steps, a blocked call is the actor waiting, exactly the element given is pushed, and the answer is an error if and only if the run gives up waiting |
| PipeCalls.ReceiveIsARun | MempoolIPC/src/RouterIPC.h:138-166 | likewise for Receive |
| PipeCalls.ShutdownIsARun | MempoolIPC/src/RouterIPC.h:168-175 | likewise for Shutdown |
| PipeRouter.SwapWithLastRemoves | MempoolIPC/src/RouterIPC.h:268-272 | overwriting an entry by the last one and shrinking removes exactly that entry and leaves what was visited in place |
| PipeRouter.RouterIPC.constructor | MempoolIPC/src/RouterIPC.h:214-217 | a new router lists no pipes |
| PipeRouter.RouterIPC.RegisterAsReceiver | MempoolIPC/src/RouterIPC.h:222-244 | appends a new empty pipe of the capacity asked for that shares nothing with the others, or changes nothing if there was no memory for it |
| PipeRouter.RouterIPC.Attempt | MempoolIPC/src/RouterIPC.h:261-276 | one turn of the loop, with the step back after an expired pointer, takes one more pipe off those still to be tried |
| PipeRouter.RouterIPC.Send | MempoolIPC/src/RouterIPC.h:252-280 | terminates, whenever pipes die; tries every listed pipe exactly once, gives the element once to each it could lock that runs and has room, and changes no other, leaves exactly those it could lock listed, without duplicates, and returns how many of them were full and not shut down; or waits at such a pipe |
| PipeRouter.GivenIsEnqueued | MempoolIPC/src/RouterIPC.h:92-135 | what a pipe with room becomes when it is given an element stands for the queue with the element behind it |
| PipeRouter.RouterIPC.Shutdown | MempoolIPC/src/RouterIPC.h:285-299 | each listed pipe is tried once, and exactly those that could be locked are shut down |
| PipeRouter.RouterIPC.NumReceivers | MempoolIPC/src/RouterIPC.h:304-318 | each listed pipe is tried once, and those that could be locked are counted |
| Broadcast.HubOkHistory | MempoolIPC/src/RouterIPC.h:222-280 | the invariant of router and pipes along every interleaving of the router's steps with receivers, shutdowns, registrations and deaths |
| Broadcast.TotalOrder | MempoolIPC/src/RouterIPC.h:252-280 | the i-th element a pipe delivers is the element some call of Send was given, the tickets of these calls strictly increase, and the router's order is the order of the calls in the run, also across shutdowns |
| Broadcast.ReceiversAgree | MempoolIPC/src/RouterIPC.h:252-280 | any two receivers agree on the order of the sends that reached both |
| Broadcast.StationsAreRegistrations | MempoolIPC/src/RouterIPC.h:222-244 | the pipes are those registered in the run, each with the capacity it was registered with and the number of sends begun before |
| Broadcast.ModeIsTheCallers | MempoolIPC/src/RouterIPC.h:252-280 | a Send in progress waits at full pipes in the mode its caller gave |
| Broadcast.CompleteSinceRegistration | MempoolIPC/src/RouterIPC.h:222-280 | a pipe that in the run has not died, was not shut down and had no send give up was given exactly the sends since its registration, in order, up to the one in progress |
| FreeList.LendKeepsPartition | MempoolIPC/src/MemPoolIPC.h:220-234 | lending keeps free and outstanding offsets distinct, disjoint and together exactly the blocks |
| FreeList.TakeBackKeepsPartition | MempoolIPC/src/MemPoolIPC.h:238-247 | so does taking a block back |
| FreeList.InitialPartition | MempoolIPC/src/MemPoolIPC.h:211-214 | the offsets first stored are exactly the blocks |
| FreeList.AccountedIsPartition | MempoolIPC/src/MemPoolIPC.h:219-247 | the partition holds if and only if the stack can be lent out to the bottom, no block twice, until all blocks are out |
| FreeList.BlocksAreDisjoint | MempoolIPC/src/MemPoolIPC.h:213-214 | block ranges stay in the region and do not overlap |
| FreeList.OutstandingNeverOverlap | MempoolIPC/src/MemPoolIPC.h:197-247 | in every run of loans and returns, from any mapping bases, free and outstanding offsets partition the blocks, and outstanding byte ranges are disjoint and in bounds |
| FreeList.ReturnUnderAnotherMapping | MempoolIPC/src/MemPoolIPC.h:219-247 | a block lent under one mapping base and returned under another restores the free list, offset for offset |
| FreeList.RegionHoldsBlocksExactly | MempoolIPC/src/MemPoolIPC.h:90-106 | all blocks lie inside the memory asked for if and only if the total size does not exceed a size_t |
| FreeList.AllocatorState.constructor | MempoolIPC/src/MemPoolIPC.h:171-183 | nothing is allocated yet, and all elements count as available |
| FreeList.StoreOffsets | MempoolIPC/src/MemPoolIPC.h:211-214 | the loop stores the wrapped offsets of all blocks |
| FreeList.AllocatorState.Allocate | MempoolIPC/src/MemPoolIPC.h:197-217 | fills in the offsets once; a second call changes nothing, and a failed one leaves the pool unset |
| FreeList.AllocatorState.IsPartition | MempoolIPC/src/MemPoolIPC.h:219-247 | in every valid state of the object free and outstanding offsets partition the blocks |
| FreeList.AllocatorState.LoanAt | MempoolIPC/src/MemPoolIPC.h:220-234 | hands out the caller's view of a block that was not out; null exactly when all blocks are out or elements hold no objects |
| FreeList.AllocatorState.AcceptAt | MempoolIPC/src/MemPoolIPC.h:238-247 | takes the block back; null is ignored |
| FreeList.AllocatorState.Statistics | MempoolIPC/src/MemPoolIPC.h:273-278 | counts the outstanding and the free blocks |
| AlignedMemory.RegionInBoundsExactly | MempoolHeap/src/MemPoolHeap.h:42-75 | in 64-bit arithmetic: wherever alignment succeeds all bytes of the region are inside the allocation, for every base address, if and only if the size fits in a size_t or its wrapped value leaves no room for the slack |
| AlignedMemory.SlackIsEnoughExactly | MempoolHeap/src/MemPoolHeap.h:46-72 | for every base address alignment succeeds, if and only if the alignment exceeds the slack by at most one and the wrapped size and the slack fit in a size_t |
| AlignedMemory.RegionIsUsableExactly | MempoolHeap/src/MemPoolHeap.h:42-75 | both at once, if and only if the slack covers the alignment and size and slack fit in a size_t |
| AlignedMemory.RegionWraps | MempoolHeap/src/MemPoolHeap.h:46-72 | two sizes at which they fail |
| AlignedMemory.BlocksAlignedExactly | MempoolHeap/src/MemPoolHeap.h:166-167 | every block is aligned if and only if the block size is a multiple of the alignment, or there are not two blocks |
| AlignedMemory.InteriorPointerFindsItsBlock | MempoolHeap/src/MemPoolHeap.h:263-266 | the index found from an address is `i` if and only if the address lies in block `i` |
| ArrayPool.SliceLifecycle | MempoolHeap/src/MemPoolHeap.h:199-216 | in every interleaving, whichever constructors throw: construction finds only unconstructed slots, a destruction finds the whole slice constructed exactly if none of its constructors threw and otherwise the elements before, slices are disjoint, and no slice is lent again while it is being destroyed |
| ArrayPool.DestroysOnlyBuiltExactly | MempoolHeap/src/MemPoolHeap.h:552-600 | destruction meets only constructed elements in every run if and only if constructors cannot throw, or elements are arithmetic, or there are none |
| ArrayPool.SlotsInsideExactly | MempoolHeap/src/MemPoolHeap.h:536-600 | all elements lie inside their memory if and only if it was granted, could be aligned, and its size fits in a size_t |
| ArrayPool.SlotsAlwaysInsideExactly | MempoolHeap/src/MemPoolHeap.h:536-600 | the same for every base address, as a condition on sizes, alignment and slack |
| ArrayPool.FillSlice | MempoolHeap/src/MemPoolHeap.h:559-563 | the loop over a slice changes exactly the slots of that slice |
| ArrayPool.SharedPointerArrayAllocator.constructor | MempoolHeap/src/MemPoolHeap.h:534-567 | all blocks free, in order, no slot constructed; the memory of the elements, which may be null |
| ArrayPool.SharedPointerArrayAllocator.Loan | MempoolHeap/src/MemPoolHeap.h:179-195 | lends the last free block, or fails exactly when none is free; records the lowest number available |
| ArrayPool.SharedPointerArrayAllocator.ConstructSlice | MempoolHeap/src/MemPoolHeap.h:584-602 | finds the slice from an address anywhere inside the block, and constructs exactly that slice, or the elements before the one whose constructor throws |
| ArrayPool.SharedPointerArrayAllocator.AllocateRaw | MempoolHeap/src/MemPoolHeap.h:574-603 | a whole allocation: the last free block lent and live and the address of its slice returned; nothing changed when the pool is empty; or, exactly if there is an element whose constructor throws, an exception, with free blocks and loans as they were |
| ArrayPool.AllocateOutcome | MempoolHeap/src/MemPoolHeap.h:574-603 | the same for the sequence of moves an allocation consists of, in terms of its inputs |
| ArrayPool.SharedPointerArrayAllocator.DestroySlice | MempoolHeap/src/MemPoolHeap.h:552-564 | the callback destroys exactly the slots of the block's slice, complete or not |
| ArrayPool.SharedPointerArrayAllocator.PushBack | MempoolHeap/src/MemPoolHeap.h:213-215 | only a destroyed block goes back on the free list |
| ArrayPool.SharedPointerArrayAllocator.Accept | MempoolHeap/src/MemPoolHeap.h:199-216 | a whole release: destroyed, no longer lent and last on the free list; null is ignored |
| ArrayPool.SharedPointerArrayAllocator.Statistics | MempoolHeap/src/MemPoolHeap.h:254-260 | outstanding and free blocks, and the lowest number of free blocks there has ever been |
| PooledHandles.InvStep | MempoolIPC/src/MemPoolIPC.h:342-383 | each step of a make or a release keeps objects and control blocks accounted for, no block in two handles |
| PooledHandles.PairedAccounting | MempoolIPC/src/MemPoolIPC.h:737-766 | in every interleaving, outstanding control blocks are outstanding objects, less handles being built and objects lost to exceptions, plus handles being torn down |
| PooledHandles.StepsDecide | MempoolIPC/src/MemPoolIPC.h:737-766 | handles, half-made and half-released ones and losses are exactly what the steps of a run make them |
| PooledHandles.QuiescentPools | MempoolIPC/src/MemPoolIPC.h:737-772 | between calls the pools agree if and only if no constructor has thrown, and the next make is null if and only if all elements are live or lost or elements hold no objects |
| PooledHandles.ControlPoolExhaustedExactly | MempoolIPC/src/MemPoolIPC.h:575-596 | a handle being built finds no control block if and only if as many handles are half released as there are free objects, lost ones and handles being built |
| PooledHandles.ControlPoolCanBeExhausted | MempoolIPC/src/MemPoolIPC.h:591-611 | for every pool size there is a run in which that happens |
| PooledHandles.MemPoolIPC.constructor | MempoolIPC/src/MemPoolIPC.h:724-732 | two pools of the same number of elements, nothing live; valid if both fit and both get their memory |
| PooledHandles.MemPoolIPC.MakePooled | MempoolIPC/src/MemPoolIPC.h:737-766 | null if and only if all elements are live or lost or hold no objects; an exception if and only if a constructor throws in a make that is not null, and then one more object is lost; otherwise exactly one new handle, on an object and a control block that were both free |
| PooledHandles.MemPoolIPC.HandlesAreApart | MempoolIPC/src/MemPoolIPC.h:724-766 | the elements of distinct live handles, sizeT * countPerElement bytes each, and their control blocks lie in their regions and do not overlap |
| PooledHandles.MemPoolIPC.Construct | MempoolIPC/src/MemPoolIPC.h:743-765 | the part after the loan: a control block and a handle on this object, or, exactly if a constructor throws, one more object lost |
| PooledHandles.MemPoolIPC.Release | MempoolIPC/src/MemPoolIPC.h:354-383 | returns both blocks of that handle and leaves every other handle alone |
| PooledHandles.MemPoolIPC.Statistics | MempoolIPC/src/MemPoolIPC.h:769-772 | counts the live handles, not the lost objects |
| Grower.GrowthBound | MempoolIPC/src/MemPoolIPC.h:820-840 | after r replacements in a run the pool has n0 * 2^r elements, and n0 * (2^r - 1) is less than the number of loans in it, which between calls are the handles made and the objects lost |
| Grower.GrowthFromNothing | MempoolIPC/src/MemPoolIPC.h:831-836 | a pool that starts without elements has 2^(r-1) after r replacements |
| Grower.EventsDecide | MempoolIPC/src/MemPoolIPC.h:820-840 | the generations, loans, handles made and losses recorded in the state are those of the run |
| Grower.GrowthBoundExactly | MempoolIPC/src/MemPoolIPC.h:819-840 | the bound on handles made holds in every run if and only if elements hold at least one object and constructors cannot throw |
| Grower.EmptyElementsGrowForever | MempoolIPC/src/MemPoolIPC.h:827-836 | with no objects per element no object is ever lent, no handle is ever made, and every call can only replace the pool |
| Grower.GenerationSafety | MempoolIPC/src/MemPoolIPC.h:756-787 | both memory regions of a generation are freed if and only if it has been replaced and its last handle is gone, control block included; no step on any handle touches freed memory |
| Grower.ReleaseGoesHome | MempoolIPC/src/MemPoolIPC.h:354-383 | each half of a release puts its block back into the generation it came from and touches no other one; the second frees the memory if and only if it was the last handle of a replaced generation |
| Grower.MemPoolGrowerIPC.constructor | MempoolIPC/src/MemPoolIPC.h:808-810 | one generation of the given size, no reconstructions |
| Grower.MemPoolGrowerIPC.Take | MempoolIPC/src/MemPoolIPC.h:737-766 | one step on the pools of a generation |
| Grower.MemPoolGrowerIPC.ReConstruct | MempoolIPC/src/MemPoolIPC.h:831-836 | the replacement by a pool of twice the size, or of one element if there were none, and the first loan of the new pool |
| Grower.MemPoolGrowerIPC.FinishMake | MempoolIPC/src/MemPoolIPC.h:743-765 | the rest of a make: a new handle of the current generation on the object lent, or an exception that loses it; no other handle comes or goes |
| Grower.MemPoolGrowerIPC.LoanObject | MempoolIPC/src/MemPoolIPC.h:820-840 | the loan of a make, from the current pool or its replacement: when it comes back with an object, when the pool is replaced, and that no handle comes or goes |
| Grower.MemPoolGrowerIPC.MakePooled | MempoolIPC/src/MemPoolIPC.h:820-840 | each of the four outcomes exactly when it occurs; the live handles of all generations grow by exactly the handle returned, which was not among them, and an object is lost exactly by an exception; the pool is replaced exactly when the current one could not lend and there was memory; all as steps of a run |
| Grower.MemPoolGrowerIPC.Release | MempoolIPC/src/MemPoolIPC.h:354-383 | the object and then the control block go back to the handle's generation, as steps of a run; the live handles lose that handle and no other |
| SendQueue.EvictionSpecification | Networking/src/websocket_session.cpp:111-135 | with M = max(max_queue_size, 2), exactly the oldest min(k, max(0, size - M + 1)) of the k unforced messages from index 2 on are removed, in order, and after the append the queue is within M or everything earlier from index 2 on is forced |
| SendQueue.InFlightIsKept | Networking/src/websocket_session.cpp:111-139 | the message being written, and the next one, are never evicted |
| SendQueue.ExactlyOnceCompletion | Networking/src/websocket_session.cpp:102-203 | in every run of either kind of session one operation is outstanding if and only if the queue is not empty, it is the front message's, and each handler has been called exactly once if its message has left the queue and never before, nor if an HTTP session was destroyed with it |
| SendQueue.QueuedAsSubmitted | Networking/src/websocket_session.cpp:102-139 | what is queued is what the run submitted under that number: its bytes, its force flag, its handler |
| SendQueue.CompletionTakesItsMessage | Networking/src/websocket_session.cpp:162-203 | a completion takes the message of the outstanding operation off the queue, and no other one |
| SendQueue.DestructionCompletesExactly | Networking/src/websocket_session.cpp:275-287 | a session destroyed in the run has called every handler once if and only if it was a websocket session or no message with a handler was queued |
| SendQueue.HttpForgetsHandlers | Networking/src/http_session.cpp:337-340 | an HTTP session destroyed while sending never calls the handler |
| SendQueue.ForcedMessagesAreWritten | Networking/src/websocket_session.cpp:141-156 | in every run of a websocket session, whatever the limiter answers, a forced message with bytes is written and never aborted when its turn comes, and a message without bytes is never written |
| SendQueue.StartsExactly | Networking/src/websocket_session.cpp:141-203 | in every run an operation that starts is a write if and only if the message has bytes and, in a websocket session, the limiter lets it pass or it is forced, in an HTTP session, no response is being written; otherwise an abort; no other send touches the outstanding operation |
| SendQueue.FavourableRunsWrite | Networking/src/websocket_session.cpp:141-203 | if limiter or pipelining queue let everything pass in a run, a message is aborted only if it has no bytes |
| SendQueue.WebsocketSession.constructor | Networking/src/websocket_session.cpp:247-256 | empty queue, nothing outstanding |
| SendQueue.WebsocketSession.MakeRoom | Networking/src/websocket_session.cpp:113-131 | the in-place eviction loop, with its step back after an erase, terminates, leaves what the eviction function says, and calls the handlers of exactly what it removes |
| SendQueue.WebsocketSession.OnSend | Networking/src/websocket_session.cpp:102-158 | evicts what the limit demands and calls the handlers of exactly that, appends, and only if the message is alone starts on it: a write exactly if it has bytes and may pass or is forced, otherwise an abort |
| SendQueue.WebsocketSession.OnWrite | Networking/src/websocket_session.cpp:162-203 | takes the front message off the queue, calls its handler, and starts on the next one: a write exactly if it has bytes and may pass or is forced, otherwise an abort |
| SendQueue.WebsocketSession.Drain | Networking/src/websocket_session.cpp:275-287 | the destructor calls every remaining handler, in order |
| Pipelining.InvStep | Networking/src/http_session.cpp:129-189 | every completion keeps the pipelining invariant, and a write completion always finds its response |
| Pipelining.EventsDecide | Networking/src/http_session.cpp:129-189 | no write is started any more if and only if one in the run has failed or said close, no read if and only if one has not brought a request, and there are as many responses and finished writes as the run has requests and successful writes |
| Pipelining.BackPressure | Networking/src/http_session.hpp:227-292 | until the first error, close or upgrade in the run: at most 8 responses queued, one read outstanding if and only if fewer than 8 are, one write if and only if any is, responses in request order |
| Pipelining.SafeAfterErrors | Networking/src/http_session.cpp:129-189 | in every run: at most 8 queued, never two reads or two writes at once, none of either after its end, and the responses written answer the first requests, in order, none skipped |
| Pipelining.NothingAfterTheEnd | Networking/src/http_session.cpp:169-189 | after an error or a response that says close no further response is written, and after an error, the end of the stream or an upgrade no further request is answered, whatever follows |
| Pipelining.NeverStalls | Networking/src/http_session.cpp:163-188 | with nothing outstanding, a completion of the run has failed, closed the connection or handed it over |
| Pipelining.HttpSession.constructor | Networking/src/http_session.cpp:343-347 | empty queue and the first read |
| Pipelining.HttpSession.Enqueue | Networking/src/http_session.hpp:256-292 | a response is appended, and written at once exactly if it is alone |
| Pipelining.HttpSession.Dequeue | Networking/src/http_session.hpp:237-245 | the written response leaves, the next one is started, and the answer is whether the queue was full |
| Pipelining.HttpSession.OnRead | Networking/src/http_session.cpp:129-166 | a request is answered at the back of the queue and the next read starts only while fewer than 8 are queued; anything else ends reading; the invariant is kept |
| Pipelining.HttpSession.OnWrite | Networking/src/http_session.cpp:169-189 | an error and a response that says close both end writing and leave the queue alone; otherwise the written response leaves, the next one starts, and reading resumes exactly if the queue was full; the invariant is kept |
| Framing.OverrunExactly | Networking/src/http_session.cpp:89-101 | the header is always read inside the buffer, and the read of the body is started past its end if and only if header and announced body together do not fit in a size_t |
| Framing.OverrunHappens | Networking/src/http_session.cpp:89-101 | an eight-byte header for which 2^64 - 4 bytes are announced leaves the buffer at eight bytes |
| Framing.StaysInsideExactly | Networking/src/http_session.cpp:36-123 | over all streams, stale buffers and numbers of turns no read leaves the buffer if and only if the callback never announces too much |
| Framing.FrameIsFront | Networking/src/http_session.cpp:79-123 | a frame is the front of the stream, nothing lost or repeated, and the buffer does not shrink |
| Framing.NoByteLost | Networking/src/http_session.cpp:36-123 | for every stream, callback and stale buffer the messages delivered, followed by what is left, are the stream |
| Framing.ReaderInvertsConcatenation | Networking/src/http_session.cpp:36-123 | of any concatenation of well-formed frames the loop delivers exactly those, in order, and leaves exactly what follows, whatever the buffer held; the next turn leaves the buffer if and only if what follows announces too much |
| Framing.HttpSession.constructor | Networking/src/http_session.cpp:20-33 | an empty buffer |
| Framing.HttpSession.EnsureSize | Networking/src/http_session.cpp:44-48 | the buffer only grows, and its recorded size is its size |
| Framing.HttpSession.ReadOne | Networking/src/http_session.cpp:79-123 | the header handler and the body handler for one frame, as one turn on values; a read past the end is an outcome of its own |
| Framing.HttpSession.ReadAll | Networking/src/http_session.cpp:36-123 | the loop over frames is the loop on values |
| NamedObject.CounterCountsHandles | MempoolIPC/src/UtilsIPC.h:157-219 | without constructor exceptions, in every interleaving: the counter is the number of live handles, null ones included, and within the limit; live handles that are not null have their object; it is destroyed only by the release from 1 to 0 |
| NamedObject.CountedExactly | MempoolIPC/src/UtilsIPC.h:193-214 | the counter is right throughout a run if and only if no construction in it throws |
| NamedObject.SafeExactlyWithoutExceptions | MempoolIPC/src/UtilsIPC.h:54-106 | if constructors may throw, a run exists in which a live handle has lost its object |
| NamedObject.SharedObject.constructor | MempoolIPC/src/UtilsIPC.h:183-187 | the counter starts at 0, without an object |
| NamedObject.SharedObject.FindOrCreate | MempoolIPC/src/UtilsIPC.h:157-219 | null without a deleter exactly if the limit is reached; a handle on the object exactly if it was there or is built now; the counter goes up but for a refused call and a constructor that throws |
| NamedObject.SharedObject.Destroy | MempoolIPC/src/UtilsIPC.h:54-106 | the counter goes down, not below 0; the object goes exactly if the counter was 1; that handle goes and no other |
| Heartbeat.ReadInvertsPrint | Networking/src/MultiClientSender.hpp:108-114 | reading the decimal digits of a number gives the number back |
| Heartbeat.SearchIsLeftmost | Networking/src/MultiClientReceiver.hpp:44-66 | the search finds the leftmost match of its pattern, and finds one if there is one |
| Heartbeat.FindsItsItem | Networking/src/MultiClientReceiver.hpp:44-66 | if nothing that starts in an earlier item can match, the first match is the item's own value |
| Heartbeat.FindsNothing | Networking/src/MultiClientReceiver.hpp:44-66 | if that holds of all items, nothing is found |
| Heartbeat.Port | Networking/src/MultiClientReceiver.hpp:48-55 | a port is the number found, or an all-ones word if there is none, truncated to 16 bits |
| Heartbeat.SenderCharacteristics.constructor | Networking/src/MultiClientReceiver.hpp:33-35 | empty topic and zeros |
| Heartbeat.SenderCharacteristics.Parse | Networking/src/MultiClientReceiver.hpp:37-69 | what each field becomes from what its search finds, the error flag, and which fields keep their values when a number does not fit and the conversion throws |
| Heartbeat.RoundTrip | Networking/src/MultiClientSender.hpp:104-118 | the receiver recovers every field of a printed announcement without error if and only if the topic is a non-empty string of word characters and the time is not negative |
| Heartbeat.ThrowsExactly | Networking/src/MultiClientReceiver.hpp:48-66 | for a printed announcement with a word topic and a non-negative time the parser gets past its first k numbers if and only if all of them are below 2^64 |
| Heartbeat.TopicAloneIsAccepted | Networking/src/MultiClientReceiver.hpp:48-66 | with only a topic there is no error, the ports are 65535 and the rest is 0 |

## Left out

- Sockets, TLS, resolvers, timers, UDP, listeners and session detection: only their completions appear, as steps of the environment.
- Rate limiter: its answer is an arbitrary boolean (`Gate.Limiter`); its clock and floating-point statistics are not part of this model.
- `open_or_create_mapping` and `remove_mapping`: opening, counting and unlinking are not one step, and rest on the operating system's unlink semantics.
- Detecting the size and alignment of a control block by rebinding templates: both are parameters.
- `TCPClientBase` and the session sets of `shared_state`: weaker copies of the queues modelled here.
- File serving, MIME types, certificates, printing and random ids; of `handle_request` only that every path sends exactly one response, as the `Request` completion of `Pipelining`.
- Liveness under real timeouts and semaphore fairness: a timed wait may time out at any moment, and a Send that waits at a full pipe keeps the router's mutex, so nothing says that a Shutdown gets past it.
- Semaphore overflow: the counters are unbounded.
- Pipes of capacity 0, for which the modulo is undefined in the source, and pipes whose slots could not be allocated.
- The destructor of a pipe: it does what Shutdown does and frees the slots.
- Interference inside a router's Shutdown: `RouterIPC.Shutdown` is one call; in `Broadcast` a shutdown of a pipe is taken step by step by a client.
- `PipeRouter.RouterIPC.Send`: the index is not a 32-bit int; a list of 2^31 pipes is beyond the model.
- Use of a shared pool whose size wraps or that got no memory: `FreeList` says when blocks then leave the region, `PooledHandles.MemPoolIPC` is described only where both pools fit.
- Elements of a shared-memory handle one by one: an exception of any of their constructors is one step, and destructors do not appear; slots are constructed and destroyed one by one in `ArrayPool`.
- Refused memory for the pointers of a process-local pool: every allocation is then null. The memory of the elements, which is not checked, is modelled.
- A make that finds no control block: what the source does with the null address is not modelled, so a run of the pools ends there.
- `Framing.HttpSession.ReadAll`: takes the stream as the bytes that will arrive; a read error ends the loop like missing bytes, nothing is said after a read past the end, and a session without a length callback, which reads one header and stops, is not modelled.
- `SendQueue.WebsocketSession.OnWrite`: the error a completion carries is passed on to the handler only, so success and failure are one step.
- `NamedObject.SharedObject.FindOrCreate`: a missing segment, mutex or counter answers like a reached limit and is not a case of its own.
- `Heartbeat.SearchIsLeftmost`: regular expressions are modelled for the six patterns the parser uses, in the C locale.

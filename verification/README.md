# Verified model of the Baios dual microkernel

Baios runs two microkernels side by side. The hardware kernel owns physical memory; the
software kernel owns processes and system calls; two shared-memory rings connect them. This
project models the stateful cores of both kernels in Dafny, in the form the source has them
(objects and arrays updated in place, each method tied to a specification function), and
proves what every call, every step and every run keeps.

`dafny verify dfyconfig.toml` checks the whole project. Lemmas and methods hide the
definitions they do not need, which keeps every proof obligation small.

## What is modelled

**Physical page allocator** (`BIOS/src/hw/phys_memory.c`).
`PhysMemory` holds the array of page descriptors, the free list and the counter of each
order, and the statistics. Links between descriptors are page numbers. The layers below it are

- `Dyadic`: runs of 2^k pages, their nesting, and the partner a page number reaches by
  flipping bit k;
- `FreeBlocks`: the blocks of a set of free pages, that is its maximal aligned runs of order
  at most 10, and what taking away or adding one run does to them;
- `BuddyLists`: allocation, splitting and merging as functions on the free lists, and the
  invariant that the lists hold exactly the blocks of the free pages;
- `BuddyRuns`: the initial decomposition and all runs of allocations and releases;
- `PageLists`: the doubly linked lists threaded through the descriptors;
- `MergeTest`: why reading one descriptor decides whether the partner block is free, although
  the descriptors of interior pages are stale;
- `PageMemory`: descriptors, list heads, wrapping 64-bit counters and statistics as one value,
  what the code does to it line by line for any arguments, and when it is consistent;
- `PageRelease`: the release line by line, with the order of the allocation and with any
  other order.

The allocator keeps no record of block boundaries, so the central fact is that the free lists
are a function of the set of free pages alone. From it follow exact tiling, full coalescing,
history independence, and that an allocation fails only when no aligned run is free.

**IPC rings and the reply protocol** (`BIOS/src/ipc/zero_copy.c`, `BIOS/src/hw/hw_kernel.c`,
`BIOS/src/sw/sw_kernel.cpp`).
`Ring` is the 32-slot ring as a sequential object and `ConcurrentRing` the same ring shared by
a producer and a consumer thread, with word-by-word copies. Both what can go wrong and
what must go on are proved: a begun push or pop completes whatever the other thread does. `WeakRing` is that ring without
the memory barrier the source asks for: the new head may be seen before words of the message
are. `IpcSpec` and `Ipc` are the channel layer over two rings; a receive polls, and what other
threads send between its polls is an input, as is the clock. `KernelSpec` and `Kernel` are the
system call entry, the message handlers and one turn of each main loop. `KernelSteps` takes
the turns apart: receiving and handling are separate steps of two threads, with system calls
in between.

**Process table** (`BIOS/src/sw/process_manager.c`): `ProcessTable`.

**Round-robin scheduler** (`BIOS/sw/process_manager.cpp`): `SchedulerSpec` and `Scheduler`.
As in the source, a switch marks the previous process ready whatever its state was. No process that
can run and is not killed starves.

**In-memory file system** (`BIOS/sw/filesystem.cpp`): `Paths`, `PathNames`, `FsTree` and
`FileSystem`. As in the source, the resolver reads at most 255 characters into a component and goes on with the rest
as if it were the next component.

Results that say a promise fails, each with the exact condition under which it holds and an
input on which it does not:

- A release does not compare its order with the order of the allocation. The memory stays
  consistent, and the free pages are counted right, if and only if the two agree
  (`PageRelease.FreeNeedsItsOrder`). With four pages, an allocation of order 1 and its release
  with order 0, the free lists even end up as they should be, because the stale descriptor of
  page 1 passes the merge test, but a counter wraps around and three of four free pages are
  reported (`PageRelease.FourPagesWrongOrder`, `PhysMemory.WrongOrderRun`).
- Destroying a channel loses its counters (`IpcSpec.DestroyConserves`); one message on a new
  channel is enough (`IpcSpec.DestroyedTraffic`).
- Killing the current process is undone by the next yield (`SchedulerSpec.KillIsFinal`), for
  example for init after start-up (`SchedulerSpec.KilledInitRuns`).
- A directory whose name is longer than 255 characters is created but cannot be reached by
  its own path (`PathNames.NewName`), for example one of 256 letters (`FileSystem.LongNameRun`).
- Without the memory barrier, every continuation delivers intact messages if and only if the
  slot is complete when its head is published (`WeakRing.PublicationDecides`); otherwise a
  message that was never offered can be delivered (`WeakRing.TornDelivery`).

Where the code and its comments differ, the code is followed: `BIOS/include/ipc.h:84`
announces that a send copies the header and `data_len` bytes, `BIOS/src/ipc/zero_copy.c:51`
copies the whole message.

## Model

| member | source | states |
|---|---|---|
| Dyadic.AlignedIsDivisible | BIOS/src/hw/phys_memory.c:32-34 | a run of order k starts at a multiple of 2^k |
| Dyadic.XorIsSibling | BIOS/src/hw/phys_memory.c:208 | xor of an aligned page number with 2^k is the other half of the run of order k+1 around it |
| Dyadic.Nested | BIOS/src/hw/phys_memory.c:142-157 | the run of smaller order around a page lies inside the run of larger order around it |
| FreeBlocks.BlocksDisjoint | BIOS/src/hw/phys_memory.c:159-229 | two blocks of the same free pages that share a page are the same block |
| FreeBlocks.BlockOf | BIOS/src/hw/phys_memory.c:159-229 | every free page lies in exactly one block |
| FreeBlocks.RemoveBlock | BIOS/src/hw/phys_memory.c:164-167 | taking one block off its list leaves exactly the other blocks of the remaining free pages |
| FreeBlocks.AddBlock | BIOS/src/hw/phys_memory.c:227-228 | listing a run whose partner is not wholly free adds this block and changes no other |
| BuddyLists.MergeTest | BIOS/src/hw/phys_memory.c:207-214 | beside a run that is not free, the partner is listed with order k if and only if all its pages are free |
| BuddyLists.SplitCanonical | BIOS/src/hw/phys_memory.c:142-157 | after splitting, the lists hold exactly the blocks of the old free pages plus the split-off halves |
| BuddyLists.MergeCanonical | BIOS/src/hw/phys_memory.c:206-228 | after merging, the lists hold exactly the blocks of the old free pages plus the returned run |
| BuddyLists.AllocKeeps | BIOS/src/hw/phys_memory.c:159-185 | an allocation fails if and only if the order is above 10 or no aligned run of 2^k free pages exists; otherwise exactly such a run leaves the free pages |
| BuddyLists.ReleaseKeeps | BIOS/src/hw/phys_memory.c:187-229 | a release with the allocation's order returns exactly its pages and keeps the invariant |
| BuddyRuns.GreedyStep | BIOS/src/hw/phys_memory.c:100-114 | the position of the greedy loop is aligned for the order it chooses, and below order 10 the chosen orders strictly decrease |
| BuddyRuns.InitialKeeps | BIOS/src/hw/phys_memory.c:97-115 | for every page count the greedy loop lists exactly the blocks of the whole memory |
| BuddyRuns.InitialBlocks | BIOS/src/hw/phys_memory.c:97-115 | below order 10 there is a block of order k exactly when bit k of the page count is set, at one fixed place; order 10 has as many blocks as fit |
| BuddyRuns.RunKeeps | BIOS/src/hw/phys_memory.c:159-229 | the invariant holds after every run of allocations and proper releases |
| BuddyRuns.RunSafety | BIOS/src/hw/phys_memory.c:159-229 | after every run, live allocations are aligned, in range, pairwise disjoint and share no page with a listed block |
| BuddyRuns.AllocIsBestFit | BIOS/src/hw/phys_memory.c:163-169 | an allocation is cut from the front of a block of the smallest sufficient order |
| BuddyRuns.HistoryIndependence | BIOS/src/hw/phys_memory.c:98-229 | two runs that leave the same pages free leave the same blocks on the lists |
| BuddyRuns.ReleasesRun | BIOS/src/hw/phys_memory.c:187-229 | releasing all live allocations in any order is a proper run that leaves none |
| BuddyRuns.AllReleased | BIOS/src/hw/phys_memory.c:98-229 | releasing all live allocations in any order restores the initial blocks |
| BuddyRuns.AllocThenRelease | BIOS/src/hw/phys_memory.c:159-229 | an allocation followed by its release restores the blocks and the live allocations |
| BuddyRuns.LastReleasedFirst | BIOS/src/hw/phys_memory.c:36-52 | the free lists are stacks: a released run that does not merge is the next one handed out for its order, and the allocator is as before |
| BuddyRuns.Tiling | BIOS/src/hw/phys_memory.c:98-229 | every page lies in exactly one live allocation or exactly one listed block |
| BuddyRuns.FullyCoalesced | BIOS/src/hw/phys_memory.c:206-228 | no two listed blocks of an order below 10 are partners |
| PageLists.AddLinked | BIOS/src/hw/phys_memory.c:36-42 | linking a page in front of one list keeps all eleven chains and every descriptor but its links |
| PageLists.RemoveLinked | BIOS/src/hw/phys_memory.c:44-52 | unlinking a page closes its chain around it and keeps all the others |
| MergeTest.DescriptorTest | BIOS/src/hw/phys_memory.c:208-214 | range, free bit and order of the partner's descriptor hold the right values if and only if the partner is on the list of that order |
| PageMemory.Peak | BIOS/src/hw/phys_memory.c:178-179 | the running maximum is the largest number of pages ever in use |
| PageMemory.PushKeeps | BIOS/src/hw/phys_memory.c:227-228 | linking a block and adding to its counter, modulo 2^64, keeps all chains and counters right |
| PageMemory.PullKeeps | BIOS/src/hw/phys_memory.c:216-217 | unlinking a listed block and subtracting from its counter, modulo 2^64, keeps all chains and counters right |
| PageMemory.AccountsAgree | BIOS/src/hw/phys_memory.c:98-115 | in a consistent memory the reported free pages, the counters times their block sizes and the pages outside live allocations are the same number, and free plus kernel pages are all pages |
| PageMemory.KnownLive | BIOS/src/hw/phys_memory.c:191-193 | the guard of a release lets exactly the first pages of live allocations through |
| PageMemory.ReturnedBalances | BIOS/src/hw/phys_memory.c:195-200 | free, kernel and user pages together keep their sum modulo 2^64 if and only if the released page carries exactly one of the two owner flags |
| PageRelease.JoinKeeps | BIOS/src/hw/phys_memory.c:208-224 | one turn of the merge loop with a listed partner keeps every loop invariant, with the partner's pages in the block being merged |
| PageRelease.MergedKeeps | BIOS/src/hw/phys_memory.c:206-228 | the merge loop, testing descriptors only, computes `MergeLists` |
| PageRelease.FreedKeeps | BIOS/src/hw/phys_memory.c:187-229 | releasing a live allocation with its order leads from consistent memory to consistent memory without that allocation |
| PageRelease.MergedDescribed | BIOS/src/hw/phys_memory.c:206-228 | with any order, the merge loop leaves every descriptor's flags and the orders of all live allocations as they are |
| PageRelease.FreedCount | BIOS/src/hw/phys_memory.c:195-200 | with any order k the reported free pages grow by 2^k, while the pages outside live allocations grow by the size of the allocation |
| PageRelease.FreeNeedsItsOrder | BIOS/src/hw/phys_memory.c:187-229 | releasing a live allocation with order k leaves a memory that is consistent for some lists, live allocations and history if and only if k is the order of the allocation; the same condition decides whether the free pages are reported right |
| PageRelease.FourPagesWrongOrder | BIOS/src/hw/phys_memory.c:187-229 | four pages, allocation of order 1, release with order 0: the lists end as those of four free pages, three are reported free and no account of the memory is consistent |
| PhysMemory.PhysMemory.ListAdd | BIOS/src/hw/phys_memory.c:36-42 | the assignments in place give exactly the descriptors and head of `AfterAdd`, whatever the lists are |
| PhysMemory.PhysMemory.ListRemove | BIOS/src/hw/phys_memory.c:44-52 | the assignments in place give exactly the descriptors and head of `AfterRemove`, even for a page that is on no list |
| PhysMemory.PhysMemory.LinkBlock | BIOS/src/hw/phys_memory.c:227-228 | list and counter grow together |
| PhysMemory.PhysMemory.UnlinkBlock | BIOS/src/hw/phys_memory.c:216-217 | list and counter shrink together |
| PhysMemory.PhysMemory.SplitBlock | BIOS/src/hw/phys_memory.c:142-157 | the split-off halves are listed as `SplitLists` says, and the front half is left with the target order |
| PhysMemory.PhysMemory.TakeBlockFrom | BIOS/src/hw/phys_memory.c:164-173 | the front block of the list is cut down and marked as a live allocation |
| PhysMemory.PhysMemory.CountTaken | BIOS/src/hw/phys_memory.c:175-179 | free plus kernel pages stay the total, and the peak is the maximum over the history |
| PhysMemory.PhysMemory.MmAlloc | BIOS/src/hw/phys_memory.c:159-185 | in every reachable state it does what `Alloc` says, fails exactly when no aligned run is free, and changes nothing when it fails |
| PhysMemory.PhysMemory.MergeBlock | BIOS/src/hw/phys_memory.c:206-228 | the loop in place gives the memory of `Merged` for any page and order, also when the merge test is wrong about the partner |
| PhysMemory.PhysMemory.CountReturned | BIOS/src/hw/phys_memory.c:195-200 | the statistics after a release by its flags, modulo 2^64 |
| PhysMemory.PhysMemory.MmFree | BIOS/src/hw/phys_memory.c:187-229 | for every page and every order it does what the code does to the memory; in a valid state, freeing anything but a live first page changes nothing, freeing a live one leaves a valid state if and only if the order is the allocation's, and then it does what `Release` says |
| PhysMemory.PhysMemory.MmGetStats | BIOS/src/hw/phys_memory.c:231-234 | the statistics handed out agree with the counters, with the free pages and with the total |
| PhysMemory.PhysMemory.ChooseOrder | BIOS/src/hw/phys_memory.c:101-103 | the largest order up to 10 that fits into the remaining pages |
| PhysMemory.PhysMemory.ClearPages | BIOS/src/hw/phys_memory.c:77-95 | every descriptor is a free single page on no list, and lists and counters are empty |
| PhysMemory.PhysMemory.BuildFreeLists | BIOS/src/hw/phys_memory.c:97-115 | the loop terminates with the lists of `Initial` and all pages counted free |
| PhysMemory.PhysMemory.MmInit | BIOS/src/hw/phys_memory.c:64-123 | the status of each case, the capped page count and the initial state |
| PhysMemory.PhysMemory.MmShutdown | BIOS/src/hw/phys_memory.c:125-136 | everything is cleared, or nothing changes when not initialized |
| PhysMemory.Replay | BIOS/src/hw/phys_memory.c:159-229 | any proper sequence of calls carries the allocator through the corresponding run and keeps its invariant |
| PhysMemory.AllocAndFree | BIOS/src/hw/phys_memory.c:159-229 | an allocation and its release restore blocks, live allocations and all statistics but the peak |
| PhysMemory.WrongOrderRun | BIOS/src/hw/phys_memory.c:64-229 | from initialization on, an allocation of order 1 released with order 0 leaves three of four free pages reported |
| Ring.AfterPush | BIOS/src/ipc/zero_copy.c:50-53 | writing the head slot and moving the head appends the message |
| Ring.AfterPop | BIOS/src/ipc/zero_copy.c:61-63 | moving the tail takes the oldest message off |
| Ring.Ring.Init | BIOS/src/ipc/zero_copy.c:30-36 | the ring is empty |
| Ring.Ring.Push | BIOS/src/ipc/zero_copy.c:46-55 | refused if and only if 31 messages are queued, otherwise the message is appended |
| Ring.Ring.Pop | BIOS/src/ipc/zero_copy.c:57-65 | fails if and only if the ring is empty, otherwise returns and removes the oldest message |
| ConcurrentRing.StepKeeps | BIOS/src/ipc/zero_copy.c:38-65 | every step of either thread, in any interleaving, keeps the ring invariant |
| ConcurrentRing.HeadIsFree | BIOS/src/ipc/zero_copy.c:50-51 | the slot being written is not one of the queued slots |
| ConcurrentRing.ProducerCan | BIOS/src/ipc/zero_copy.c:38-54 | an idle producer can begin a push of any message if and only if fewer than 31 are queued and is refused if and only if 31 are; while copying it can copy exactly the missing words, and publish exactly when none is missing |
| ConcurrentRing.ConsumerCan | BIOS/src/ipc/zero_copy.c:42-65 | an idle consumer can begin a pop if and only if a message is queued and is refused if and only if none is; while copying, likewise |
| ConcurrentRing.StepRefinesQueue | BIOS/src/ipc/zero_copy.c:38-65 | each step appends, removes or leaves the queue as the sequential ring would; refusals happen only at 31 and at 0 messages |
| ConcurrentRing.PushCompletes | BIOS/src/ipc/zero_copy.c:46-55 | a push that has begun is accepted after one more producer step than words are missing, whatever the consumer does meanwhile |
| ConcurrentRing.PopCompletes | BIOS/src/ipc/zero_copy.c:57-65 | a pop that has begun delivers the oldest queued message after one more consumer step than words are missing, whatever the producer does meanwhile |
| ConcurrentRing.PushAlone | BIOS/src/ipc/zero_copy.c:46-55 | into a ring with fewer than 31 messages, producer steps alone lead to the message being accepted |
| ConcurrentRing.RunKeeps | BIOS/src/ipc/zero_copy.c:46-65 | over every run the messages accepted, with the pending one, are those the pushes were begun with |
| ConcurrentRing.RingSafety | BIOS/src/ipc/zero_copy.c:38-65 | in every interleaving the delivered messages are the first offered ones, whole and in order, and no slot is read while it is written |
| WeakRing.WeakStepKeeps | BIOS/src/ipc/zero_copy.c:46-65 | with stores of the producer reaching the ring late, every step keeps the ring invariant as long as published slots are complete |
| WeakRing.WholeRunSafety | BIOS/src/ipc/zero_copy.c:50-53 | if every publication finds its slot complete, the delivered messages are the first offered ones, whole and in order, however late other stores arrive |
| WeakRing.ProducerIsFree | BIOS/src/ipc/zero_copy.c:46-55 | late stores can always arrive, and an idle producer can begin a push if and only if the ring is not full and no store to its slot is late |
| WeakRing.TornRecovers | BIOS/src/ipc/zero_copy.c:50-53 | a publication with words missing does no harm once its late stores have arrived: the whole message is queued and the ring invariant holds |
| WeakRing.ConsumerRun | BIOS/src/ipc/zero_copy.c:57-65 | a consumer running alone empties the ring, and its last message is whatever the last slot holds |
| WeakRing.PublicationDecides | BIOS/src/ipc/zero_copy.c:50-53 | in every reachable situation, publishing is followed by intact deliveries in every continuation if and only if the slot is complete |
| WeakRing.TornDelivery | BIOS/src/ipc/zero_copy.c:50-53 | a run from the empty ring in which the head overtakes the message delivers a message that was never offered |
| IpcSpec.StartedConserved | BIOS/src/ipc/zero_copy.c:77-97 | the books balance after initialization |
| IpcSpec.SendEffect | BIOS/src/ipc/zero_copy.c:131-143 | a send succeeds if and only if the ring has room; the whole message, with the next number, is then last in the ring and counted on its channel, otherwise counted there as dropped; nothing else changes |
| IpcSpec.ReceiveEffect | BIOS/src/ipc/zero_copy.c:158-169 | a receive succeeds if and only if the ring is not empty; the whole first message is handed out and counted on its channel, otherwise nothing changes and the status tells whether there was a timeout |
| IpcSpec.ChannelEffect | BIOS/src/ipc/zero_copy.c:108-129 | which status each creation and destruction has, and that it touches one channel record and no ring |
| IpcSpec.SendConserves | BIOS/src/ipc/zero_copy.c:131-143 | an accepted or dropped send keeps the books |
| IpcSpec.RecvConserves | BIOS/src/ipc/zero_copy.c:158-169 | a receive keeps the books |
| IpcSpec.RunConserves | BIOS/src/ipc/zero_copy.c:108-204 | over every run without a destruction, sent minus received is the ring occupancy, and sent plus dropped is the sequence counter minus one |
| IpcSpec.DestroyConserves | BIOS/src/ipc/zero_copy.c:124-129 | a destruction keeps the books if and only if the channel's counters are all zero |
| IpcSpec.DestroyedTraffic | BIOS/src/ipc/zero_copy.c:108-149 | after creating a channel, sending on it and destroying it, the books do not balance |
| IpcSpec.Fifo | BIOS/src/ipc/zero_copy.c:131-204 | over every run, the messages that receives return, followed by those queued, are those queued at the start followed by the accepted ones of that ring, whole and in order |
| IpcSpec.SequenceNumbers | BIOS/src/ipc/zero_copy.c:133-135 | sequence numbers strictly increase along each ring, across drops and channels |
| IpcSpec.SpinIsOneReceive | BIOS/src/ipc/zero_copy.c:151-204 | a polling receive is one receive at the first poll that finds a message, whatever other threads send between polls; without one it is an unsuccessful receive at the last poll, or at the first without a timeout |
| Ipc.IpcLayer.Init | BIOS/src/ipc/zero_copy.c:77-97 | empty rings, one open channel, sequence counter one; refused when already initialized |
| Ipc.IpcLayer.Shutdown | BIOS/src/ipc/zero_copy.c:99-106 | all channels are cleared, or nothing changes |
| Ipc.IpcLayer.CreateChannel | BIOS/src/ipc/zero_copy.c:108-122 | the next channel is opened, or the error of the failing check is returned |
| Ipc.IpcLayer.DestroyChannel | BIOS/src/ipc/zero_copy.c:124-129 | the channel is cleared; channel 0 and unknown channels are refused |
| Ipc.IpcLayer.SendOn | BIOS/src/ipc/zero_copy.c:131-143 | one sequence number is used, and the message is queued or counted as dropped |
| Ipc.IpcLayer.RecvOn | BIOS/src/ipc/zero_copy.c:155-169 | the oldest message, whole, at the first successful poll, or the right error after the last one, with other threads sending between polls |
| Ipc.IpcLayer.Send | BIOS/src/ipc/zero_copy.c:145-149 | a send on a channel goes to the hardware ring |
| Ipc.IpcLayer.Recv | BIOS/src/ipc/zero_copy.c:151-170 | a polling receive on a channel takes the oldest message from the software ring; an error without effect when not initialized or for an unknown channel |
| Ipc.IpcLayer.SendToHw | BIOS/src/ipc/zero_copy.c:172-176 | a directed send on channel 0 to the hardware ring |
| Ipc.IpcLayer.SendToSw | BIOS/src/ipc/zero_copy.c:182-186 | a directed send on channel 0 to the software ring |
| Ipc.IpcLayer.RecvFromHw | BIOS/src/ipc/zero_copy.c:178-180 | a polling receive of the software kernel on channel 0 hands out the oldest message of its ring, whole |
| Ipc.IpcLayer.RecvFromSw | BIOS/src/ipc/zero_copy.c:188-204 | a polling receive of the hardware kernel hands out the oldest message of its ring, whole |
| ProcessTable.CreateKeeps | BIOS/src/sw/process_manager.c:52-83 | a creation succeeds if and only if a slot is free and the record can be allocated, and gives a new identifier above the parent's; each failure has its own status and changes nothing |
| ProcessTable.ExitKeeps | BIOS/src/sw/process_manager.c:85-97 | an exit keeps the table consistent and never leaves an ended process current |
| ProcessTable.KillKeeps | BIOS/src/sw/process_manager.c:99-118 | a killed process can no longer be found, and the count stays the number of occupied slots |
| ProcessTable.FindIsExact | BIOS/src/sw/process_manager.c:120-128 | looking up a process finds the slot that holds it, whichever it is, and nothing for identifiers in no slot |
| ProcessTable.CreatedIsFound | BIOS/src/sw/process_manager.c:52-83 | the identifier of a created process leads to a ready process with the given priority and the current process as parent; all other slots are as before |
| ProcessTable.ExitEffect | BIOS/src/sw/process_manager.c:85-97 | an exit succeeds if and only if some slot holds the process, which becomes a zombie; every other slot is as before, and the current process is cleared exactly when it exits |
| ProcessTable.KillEffect | BIOS/src/sw/process_manager.c:99-118 | a kill likewise, but the slot is freed and the count lowered |
| ProcessTable.FreshPids | BIOS/src/sw/process_manager.c:44-128 | over every run identifiers are handed out in increasing order, none twice, and the table stays consistent |
| ProcessTable.ProcessManager.Init | BIOS/src/sw/process_manager.c:17-27 | the empty table, or an error when already initialized |
| ProcessTable.ProcessManager.FindSlot | BIOS/src/sw/process_manager.c:44-50 | the first free slot, or none |
| ProcessTable.ProcessManager.Get | BIOS/src/sw/process_manager.c:120-128 | the one slot that holds the process, or none |
| ProcessTable.ProcessManager.ProcCreate | BIOS/src/sw/process_manager.c:52-83 | does what `Create` says, in place |
| ProcessTable.ProcessManager.ProcExit | BIOS/src/sw/process_manager.c:85-97 | does what `Exit` says, in place |
| ProcessTable.ProcessManager.ProcKill | BIOS/src/sw/process_manager.c:99-118 | does what `Kill` says, in place; the count does not underflow |
| KernelSpec.SpawnEffect | BIOS/src/sw/sw_kernel.cpp:105-116 | a spawn returns the identifier under which a new ready child of the current process is found, or says what is missing |
| KernelSpec.GetpidEffect | BIOS/src/sw/sw_kernel.cpp:98-103 | the identifier in the current slot, or 0, and nothing changes but the call count |
| KernelSpec.SpawnThenGetpid | BIOS/src/sw/sw_kernel.cpp:98-116 | the first process spawned is told the identifier it was given |
| KernelSpec.ExitEffect | BIOS/src/sw/sw_kernel.cpp:118-123 | an exit makes exactly the current process a zombie, and the identifier asked for afterwards is 0 |
| KernelSpec.ForwardEffect | BIOS/src/sw/sw_kernel.cpp:125-149 | a forwarded call is accepted if and only if the hardware ring has room; one message with its number, its four arguments and its caller is then last in the ring, and it is counted |
| KernelSpec.PlainCalls | BIOS/src/sw/sw_kernel.cpp:87-154 | the empty call succeeds, unknown numbers are refused, and before initialization every call is |
| KernelSpec.HandleEffect | BIOS/src/hw/hw_kernel.c:54-91 | a system call is counted and, if there is room, answered to its caller with status 0; driver and power messages have no effect and anything else is refused |
| KernelSpec.TurnEffect | BIOS/src/hw/hw_kernel.c:100-107 | one turn of a main loop takes exactly the first message off its ring, if its kernel is on and there is one, and counts it; otherwise nothing changes |
| KernelSpec.CallIsAnswered | BIOS/src/hw/hw_kernel.c:54-108 | on an idle system a forwarded call is answered to its caller by one turn of the hardware kernel and counted by one turn of the software kernel |
| KernelSpec.TableKept | BIOS/src/sw/sw_kernel.cpp:105-123 | the process table stays consistent in every run |
| KernelSpec.StepProtocol | BIOS/src/sw/sw_kernel.cpp:87-170 | every step moves requests and replies through the rings in order and counts each exactly once |
| KernelSpec.RunProtocol | BIOS/src/hw/hw_kernel.c:54-108 | every run answers requests in the order accepted and delivers replies in the order kept |
| KernelSpec.ReplyOrder | BIOS/src/hw/hw_kernel.c:54-108 | from empty rings, accepted callers are the answered ones followed by the queued ones, and the replies received or queued are those of the answered callers whose reply met room, in order |
| KernelSpec.MessageConservation | BIOS/src/sw/sw_kernel.cpp:64-68 | system calls sent are messages received plus messages in the rings plus dropped replies |
| KernelSpec.RequestsAreServed | BIOS/src/hw/hw_kernel.c:100-107 | as many turns of the hardware kernel as messages are queued empty its ring and answer every system call in it, in order |
| KernelSteps.TurnProtocol | BIOS/src/hw/hw_kernel.c:54-108 | every step of either main loop, receive or handling, and every system call in between keeps the reply protocol, counting the messages in hand |
| KernelSteps.InterleavedReplyOrder | BIOS/src/hw/hw_kernel.c:54-108 | under every interleaving of system calls, receives and handlings, callers are answered in the order accepted, and replies are counted in the order sent |
| KernelSteps.InterleavedConservation | BIOS/src/sw/sw_kernel.cpp:64-68 | under every such interleaving, calls sent are messages counted plus messages in rings and in hand plus dropped replies |
| KernelSteps.InterleavedDelivery | BIOS/src/hw/hw_kernel.c:54-108 | under every interleaving, requests and replies arrive whole and in order, and every reply answers a handled system call with status 0 |
| KernelSteps.WholeTurn | BIOS/src/hw/hw_kernel.c:100-107 | a receive and a handling with nothing in between are one turn of the main loop |
| Kernel.DualKernel.Forward | BIOS/src/sw/sw_kernel.cpp:131-148 | a forwarded call is queued with the current process as its source, and counted if accepted |
| Kernel.DualKernel.Syscall | BIOS/src/sw/sw_kernel.cpp:87-154 | every case of the system call entry, with its status and returned value |
| Kernel.DualKernel.HwHandle | BIOS/src/hw/hw_kernel.c:54-91 | only system calls are answered, to their source; unknown kinds are refused |
| Kernel.DualKernel.HwTurn | BIOS/src/hw/hw_kernel.c:100-107 | one turn receives at most one message and handles it |
| Kernel.DualKernel.SwHandle | BIOS/src/sw/sw_kernel.cpp:64-85 | every message is counted |
| Kernel.DualKernel.SwTurn | BIOS/src/sw/sw_kernel.cpp:163-169 | one turn receives at most one message and counts it |
| SchedulerSpec.RunKeeps | BIOS/sw/process_manager.cpp:20-123 | over every run identifiers stay distinct and only the current process can be marked running |
| SchedulerSpec.ScanFinds | BIOS/sw/process_manager.cpp:103-114 | the cyclic scan stops at or before every runnable process in its reach |
| SchedulerSpec.TickPicks | BIOS/sw/process_manager.cpp:96-115 | a tick picks the first runnable process after the current one and brings every other runnable one closer by as much |
| SchedulerSpec.TurnEffect | BIOS/sw/process_manager.cpp:96-123 | after a tick or a yield the current process is the only one running, the one switched out is ready, and no other changes; without a runnable process nothing does |
| SchedulerSpec.CreateEffect | BIOS/sw/process_manager.cpp:20-60 | a creation puts one ready process with the next identifier in front and keeps the current process and the order of the others; each failure uses up exactly what the source uses up |
| SchedulerSpec.KillEffect | BIOS/sw/process_manager.cpp:62-70 | a kill terminates the process with that identifier and touches nothing else |
| SchedulerSpec.StaysRunnable | BIOS/sw/process_manager.cpp:20-123 | over every run without its kill, a runnable process stays runnable, also when it is switched out |
| SchedulerSpec.StepServes | BIOS/sw/process_manager.cpp:20-123 | each step but its own kill keeps a runnable process runnable and, if a turn, serves it or shortens its wait; a creation lengthens it by at most one |
| SchedulerSpec.BoundedWaiting | BIOS/sw/process_manager.cpp:20-123 | a runnable process that is not killed, current or not, is served by one of the next turns, at most as many as its distance, which is at most the list length, plus the creations meanwhile |
| SchedulerSpec.ServedAgain | BIOS/sw/process_manager.cpp:20-123 | from every point of a run without its kill, a runnable process is served again within as many turns as the list is long plus the creations meanwhile: no starvation |
| SchedulerSpec.DeadStays | BIOS/sw/process_manager.cpp:62-123 | a terminated process that is not current stays so over every run |
| SchedulerSpec.KillIsFinal | BIOS/sw/process_manager.cpp:62-123 | a kill holds over every later run if and only if the killed process is not the current one |
| SchedulerSpec.KilledInitRuns | BIOS/sw/process_manager.cpp:62-123 | init, killed while current, is ready again after one yield and runs after two |
| Scheduler.Scheduler.Create | BIOS/sw/process_manager.cpp:20-60 | the new process is in front of the list; a failed stack allocation uses up an identifier only |
| Scheduler.Scheduler.Get | BIOS/sw/process_manager.cpp:83-90 | the slot found in the pool is the process found in the list |
| Scheduler.Scheduler.Kill | BIOS/sw/process_manager.cpp:62-70 | the process is marked terminated and nothing else changes |
| Scheduler.Scheduler.NextRunnable | BIOS/sw/process_manager.cpp:99-114 | the loop over the links terminates at the process the cyclic scan finds |
| Scheduler.Scheduler.SwitchTo | BIOS/sw/process_manager.cpp:106-111 | the previous process becomes ready whatever its state, the chosen one running and current |
| Scheduler.Scheduler.Tick | BIOS/sw/process_manager.cpp:96-115 | does what `Tick` says, in place |
| Scheduler.Scheduler.Yield | BIOS/sw/process_manager.cpp:117-123 | does what `Yield` says, in place |
| Scheduler.Scheduler.KernelInit | BIOS/sw/process_manager.cpp:125-148 | from any earlier state: idle and init exist and init is current |
| Paths.ChunksAreComponents | BIOS/sw/filesystem.cpp:48-57 | the resolver's loop sees the non-empty components of a path if and only if none is longer than 255 characters |
| Paths.ChunksJoin | BIOS/sw/filesystem.cpp:48-55 | a slash always separates components |
| PathNames.NewName | BIOS/sw/filesystem.cpp:143-146 | parent and name together are the components of the path if and only if the name has at most 255 characters |
| PathNames.NextComponent | BIOS/sw/filesystem.cpp:49-57 | one turn of the loop reads exactly the next component |
| PathNames.LongPathParts | BIOS/sw/filesystem.cpp:49-57 | a name of 256 letters is entered whole and read as two components |
| FsTree.GrowLinked | BIOS/sw/filesystem.cpp:154 | one new entry, with or without a node, keeps paths and tables of children tied |
| FsTree.GrowTree | BIOS/sw/filesystem.cpp:154 | one new entry keeps the nodes a tree |
| FileSystem.FileSystem.Resolve | BIOS/sw/filesystem.cpp:41-65 | the node of the path map at the components of the path, or none; the path must not lead through an entry left by a failed allocation, which the source follows |
| FileSystem.FileSystem.Insert | BIOS/sw/filesystem.cpp:154 | exactly one path is added to the path map, with or without a node, and the tree stays a tree |
| FileSystem.FileSystem.MkDir | BIOS/sw/filesystem.cpp:137-157 | each error exactly when its check fails, and then nothing changes; a failed allocation leaves one entry without a node; a success adds one empty directory, which the path resolves to if and only if its name has at most 255 characters |
| FileSystem.FileSystem.Init | BIOS/sw/filesystem.cpp:71-93 | the tree of six directories and one file, or no change when it exists or the root cannot be allocated |
| FileSystem.LongNameRun | BIOS/sw/filesystem.cpp:41-157 | after initialization a directory of 256 letters is made, and its path leads nowhere |
| FileSystem.RetryRun | BIOS/sw/filesystem.cpp:137-157 | a directory that once could not be allocated can never be made: its name is taken and leads nowhere |

## Left out

- PhysMemory.PhysMemory.MmAlloc: requires a valid allocator; after a release with a wrong order only releases and the shutdown are modelled, because a split may then follow a null descriptor in the source.
- Ipc.IpcLayer.Send: requires that the channel has not been destroyed, because the source then follows a null ring pointer; the same holds for `Ipc.IpcLayer.Recv`.
- KernelSpec.ReplyOrder: speaks of runs in which only system calls send SYSCALL messages, only the hardware kernel sends to the software ring, and only the two main loops receive, as in the source; the same holds for `KernelSpec.MessageConservation`.
- IpcSpec.SequenceNumbers: counts without bound, so it speaks of runs before the 64-bit counter wraps around, and of sends that are each one step, because the source increments the counter without synchronization.
- ProcessTable.FreshPids: counts without bound, so it speaks of runs before the 32-bit identifier wraps around.
- ConcurrentRing.RingSafety: assumes sequentially consistent memory, one producer and one consumer; `WeakRing` has stores of the producer that arrive late.
- WeakRing.PublicationDecides: a slot is written again only after its earlier stores have arrived, and the consumer's reads are not reordered.
- Scheduler.Scheduler.KernelInit: assumes that both stack allocations succeed; the source otherwise uses an identifier it never set.
- FileSystem.FileSystem.Resolve: requires that no entry left by a failed allocation lies inside the path, because the source then follows a null pointer; the same holds for the parent path in `FileSystem.FileSystem.MkDir`.
- FileSystem.FileSystem.Init: models a failed allocation of the root only; the others throw in the source.
- Ipc.IpcLayer.RecvOn: between two polls other threads only send, on channel 0; they do not create or destroy channels.
- Kernel.DualKernel.HwTurn: the method is one turn without other threads in between; `KernelSteps` has the interleavings. The same holds for `Kernel.DualKernel.SwTurn`.
- ProcessTable.ProcessManager.ProcKill: a process is its slot, so the source's second search for the pointer is not repeated.
- Null pointer arguments, and the names, owners, permissions, priorities and stacks of processes.
- Packing system call arguments into bytes: the payload is a sequence of values, and no decoder exists.
- File descriptors and file contents beyond the initial file: a descriptor is a truncated pointer.
- Shutdown of the process table and of the file system, and waiting for a process.
- Shutdown while the loops run, start-up rollback, logging, threads, clocks and sleeping.
- The interrupt, driver, power, permission and service code, and the older memory, ring and shared-memory files beside the modelled ones.

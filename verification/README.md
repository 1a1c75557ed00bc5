# MOS: verified models of the kernel, the pipes, the file system and the loaders

MOS is a small operating system for the MIPS R3000. This project models its stateful cores in Dafny and
proves what they keep over every run: the physical page allocator with its two-level page tables and the
software-filled TLB, copy-on-write fork, the scheduler and message passing over an intrusive queue, pipes,
the block and directory layers of the file server together with the offline formatter, and three
self-contained algorithms (number formatting, ELF segment loading, argument marshalling).

`dafny verify dfyconfig.toml` checks everything.

## How the model is built

Where the source changes state in place, an operation appears twice: as a method of a class that carries it
out on the fields, and as a function (or a predicate over the old and new state) on an immutable `State`
that says what it does. The method's postcondition ties the two; the lemmas about the functions carry the
theorems. Protocols that interleave (fork against stores of the parent, the two ends of a pipe, dup and close
against a check for a closed pipe) are step relations in which every load, store and system call is one step.
Copy-on-write fork has two such machines: CowFork takes the fault handler as one step, and CowHandler refines it
by the handler's own loads, stores and system calls.

| file | what it holds |
|---|---|
| Common.dfy, Mmu.dfy, Bitmap.dfy | shared types; words, permissions, flat maps; bit sets |
| PageTrees.dfy, PmapSteps.dfy, Pmap.dfy | allocator, page tables, TLB, address spaces: invariant, steps, the class `Machine` |
| CowFork.dfy, CowHandler.dfy, ForkRuns.dfy, CowWindow.dfy | copy-on-write fork against a machine that copies at once; the fault handler step by step; what a finished fork has given the child; the unsafe window |
| TailQueue.dfy, Sched.dfy, Entries.dfy, RunList.dfy, Kernel.dfy | TAILQ and LIST at pointer level; scheduler and IPC; what each kernel entry promises; what can break the run list; the code on both levels |
| PipeFifo.dfy, PipeClose.dfy | the ring buffer; detecting a closed pipe |
| FileBlocks.dfy, FileOwnership.dfy, FileRuns.dfy, FileServer.dfy | block operations; who owns which block; runs of requests; the class `FileSystem` |
| FsFormat.dfy | the formatter and its agreement with the file server |
| Paths.dfy | path names, lookup, create, remove |
| ElfLoad.dfy, InitStack.dfy, PrintNum.dfy | segment loading, argument marshalling, number formatting |

## Main results

- **Reference counts and free list.** In every state of every run from boot without `PTE_G` mappings below UTOP, or
  with them but without stores, `pp_ref` of each page equals the number of
  directory roots, directory entries and page table entries that refer to it, and the free list holds exactly
  the unreferenced pages that are not in flight, each once (`Pmap.Run`, `PmapSteps.InvConserved`).
- **TLB coherence.** In every run from boot without `PTE_G` mappings below UTOP, every TLB entry below UTOP is the
  current page table word of the live env that owns its ASID, and freeing an env leaves no entry of its ASID
  (`Pmap.Run`, `Pmap.StepClean`, `PmapSteps.InvCoherent`).
- **Flat map.** Page tables refine a flat map; insert and remove change one slot of one address space, and a
  failed insert changes no mapping (`Pmap.Machine.PageInsert`, `PmapSteps.Va2PaIsFlat`).
- **Copy-on-write.** Every run of forks, loads, stores, faults and exits shows the programs what eager copying
  would show, with the fault handler interrupted at any of its steps (`CowHandler.HandlerRefinesEager`). A finished
  fork has copied each page that the parent had below USTACKTOP exactly once, and the child has nothing else
  (`ForkRuns.ForkGives`).
- **Kernel entries.** Who may act on whom, who runs next, and every refusal, stated without the functions that compute
  it (`Entries.SetStatusPermission`, `Entries.DestroyPermission`, `Entries.YieldGives`, `Entries.SendExact`).
- **Run list.** After every kernel entry `env_sched_list` holds exactly the runnable envs, once each, with well-formed
  pointers, through the double removal of the blocking receive and but for some destructions (`Kernel.Kernel.Enter`,
  `Sched.StepKeeps`); after which calls it can still break later (`RunList.StatusBreaksExact`); waiting is bounded
  (`Sched.BoundedWaiting`); each blocking receive ends with exactly one delivery (`Sched.Rendezvous`).
- **Pipes.** First in, first out, across counter wrap-around (`PipeFifo.Fifo`); each call returns or stores what its own
  arguments ask for (`PipeFifo.ReadCall`, `PipeFifo.WriteCall`); a pipe reported closed is closed,
  for all interleavings of dup and close (`PipeClose.ClosedIsClosed`).
- **Disk blocks.** Each block is free, reserved, or in exactly one slot, over every run of requests that brings
  no stale block number to light and loses no file, and each of these conditions is exact (`FileRuns.RunKeeps`);
  truncation gives back exactly the blocks beyond the last byte (`FileOwnership.TruncateCuts`); the formatter's
  image satisfies the server's invariant and the server reads back the linked blocks (`FsFormat.ServerAgrees`).
- **Paths.** Opening answers what the entries along the path say (`Paths.OpenExact`); creating and removing change
  exactly the meaning of the paths they should (`Paths.CreateFacts`, `Paths.RemoveResolve`).
- **Round trips.** Printed numbers parse back, marshalled arguments read back, loaded segments have the bytes
  their header asks for (`PrintNum.FormattedParses`, `InitStack.ArgsRoundTrip`, `ElfLoad.SegmentBytes`).

## Where the code does not do what it seems to

Each of these is kept as the code has it, with the exact condition where there is one.

- `pp_ref` is 16 bits wide: the 65536th mapping of a page makes the count 0 (`PageTrees.RefWraps`). A program gets
  there by mapping one page 65534 times more (`Pmap.ReachLimit`).
- `env_alloc` loses the directory page when no ASID is left (`Pmap.Machine.EnvAlloc`, outcome `NoFreeEnv`), and
  `sys_mem_alloc` loses the new page when `page_insert` fails (`Pmap.Machine.SysMemAlloc`).
- `tlb_out` clears the entry that `tlbp` finds, and `tlbp` matches global entries of every ASID. Once an env has a
  `PTE_G` entry, unmapping the same page number of another env can leave a stale entry (`PmapSteps.GlobalHidesStale`);
  two touches and a mapping lead there (`PmapSteps.GlobalEntryArises`).
- `duppage` reads the permissions before it maps the page. A copy-on-write fault of the parent on a page makes some
  later run differ from eager copying exactly if it falls into that gap (`CowWindow.WindowExact`). Every fork of an env
  that has a copy-on-write page passes through the gap (`CowWindow.WindowReached`, `CowWindow.WindowExample`).
- `env_free` unlinks an env even when it is not queued. An env that never ran has a null back pointer, and the
  unlinking faults; otherwise the queue survives exactly when the stale pointers agree with it
  (`TailQueue.RemoveStrangerExact`). So a destruction leaves an intact run list exactly when the target was runnable,
  or was queued before with pointers that agree (`Kernel.Kernel.EnvDestroy`). The error path of `spawn` destroys a
  child that never ran.
- `sys_set_env_status` leaves the run list right after every call, but some calls arm it. From there, further entries
  in scope break the list exactly if the call made a receiver runnable, which the next message queues again; or if it
  stopped the caller, and the caller can get somebody onto the list it leaves empty (start or make a child, send to a
  receiver) or can stop or destroy the env it leaves at the head; then the caller's own second removal goes through
  stale pointers (`RunList.StatusBreaksExact`, `Kernel.Kernel.SetEnvStatus`).
- `mkenvid` gives slot 0 the identifier 0 when its counter wraps, and `envid2env` takes 0 for the current env
  (`Sched.LiveIdResolves`).
- `sys_ipc_try_send` delivers the message and then may report an error about the page (`Sched.SendErrorDelivers`).
- `dup` of a descriptor onto itself closes it (`PipeClose.DupCompletes`).
- `fork` copies fd pages before data pages, so a check during a fork can report an open pipe as closed
  (`PipeClose.ForkInProgressMisleads`).
- `map_block` zeroes only blocks that are not cached. A new indirect block keeps ownership exactly when the chosen
  block reads as zero (`FileOwnership.WalkExact`, `FileOwnership.StaleDiskBreaks`); three requests are enough to make
  it read otherwise (`FileRuns.StaleReachable`).
- A new directory block has the same defect: names and block numbers that its last owner left there come back.
  Ownership is kept exactly when no entry of the block that shows, the new one or one of its fifteen siblings, names a
  block (`FileRuns.GrowExact`, `FileRuns.StaleSibling`), and no other path becomes found exactly when nothing in the
  block shows (`Paths.CreateFacts`, `Paths.StaleNameExample`).
- Removing or truncating a directory loses the files in the blocks that go: ownership is kept exactly when they hold
  none (`FileRuns.LossExact`).
- `elf_load_seg` maps the first page twice, losing the file's bytes, exactly when the segment starts inside a page,
  its file part ends before the end of that page, and its memory part is longer (`ElfLoad.OnceExact`,
  `ElfLoad.MisfitLosesFile`). The image is then wrong exactly if a byte of the file was not zero or the last page is
  missed (`ElfLoad.LoadedExact`).
- `init_stack` stores a non-null address in `args[argc]`, against its own comment (`InitStack.LastWord`).
- `file_create` reports not-found when the directory cannot get another block (`Paths.FileTree.FileCreate`).

## Model

| member | source | states |
|---|---|---|
| PageTrees.TableWrite | kern/pmap.c:258-258 | writing one word of a page table changes the translation of exactly one slot and keeps the trees disjoint |
| PageTrees.AddTable | kern/pmap.c:189-200 | a zeroed page becomes a page table and maps nothing |
| PageTrees.DropTable | kern/env.c:416-420 | a table without valid entries can leave its directory with the flat map unchanged |
| PageTrees.AddRoot | kern/env.c:204-230 | a page with an empty user part becomes a directory of an empty address space |
| PageTrees.UnmapRefs | kern/pmap.c:295-322 | an unmapping lowers one count by one and puts the page on the free list exactly at the last reference |
| PageTrees.MapRefs | kern/pmap.c:258-259 | a new mapping raises exactly one count, below the 16-bit limit |
| PageTrees.RefWraps | kern/pmap.c:259-259 | at 65535 references one more mapping wraps the count to 0 while the page is mapped |
| PageTrees.InvalidateKeeps | kern/tlb_asm.S:3-28 | without global mappings, after an invalidation of a slot the TLB is coherent whatever happens to that slot |
| PmapSteps.UnmapKeeps | kern/pmap.c:306-322 | page_remove of a mapped slot keeps the whole invariant |
| PmapSteps.MapKeeps | kern/pmap.c:243-261 | completing page_insert in an empty slot keeps the whole invariant |
| PmapSteps.RemapKeeps | kern/pmap.c:233-241 | inserting the page already there changes permissions only and no count |
| PmapSteps.NoStaleEntries | kern/env.c:401-427 | once an address space maps nothing, no TLB entry carries its ASID |
| PmapSteps.CloseSpaceKeeps | kern/env.c:422-427 | giving back the empty directory and the ASID keeps the invariant |
| PmapSteps.UsesExact | kern/env.c:393-432 | after env_free each page is in the one use the definition allows: freed exactly if only that env held it |
| PmapSteps.InvConserved | kern/pmap.c:126-322 | pp_ref equals the number of roots, directory entries and table entries that refer to the page; the free list is exact |
| PmapSteps.Va2PaIsFlat | include/pmap.h:47-59 | va2pa reads off the tables what the flat map says, as page_lookup does |
| PmapSteps.InvCoherent | kern/tlbex.c:34-51 | with a coherent TLB, each entry equals the page table word found by walking the tables of the env that owns the ASID |
| PmapSteps.GlobalHidesStale | kern/tlb_asm.S:3-28 | with a global entry of another env, an unmapping can leave a stale entry behind |
| PmapSteps.GlobalEntryArises | kern/syscall_all.c:138-160 | two touches and one mapping with PTE_G lead to that state |
| PmapSteps.StoreKeeps | kern/tlbex.c:34-51 | a store through a TLB entry disturbs no mapping, count or table |
| Pmap.FindAsid | kern/env.c:35-46 | the lowest free ASID, and none exactly when all are taken |
| Pmap.Machine.constructor | kern/pmap.c:89-111 | pages below freemem have one reference; the others are free, in descending order |
| Pmap.Machine.PageAlloc | kern/pmap.c:126-145 | the first free page, zeroed, in flight with count 0; fails exactly on an empty list |
| Pmap.Machine.PageFree | kern/pmap.c:153-158 | the page goes to the head of the free list |
| Pmap.Machine.PageDecref | kern/pmap.c:295-302 | one reference less, and freed exactly when it was the last |
| Pmap.Machine.TlbInvalidate | kern/tlb_asm.S:3-28 | one matching entry goes, of the own ASID or a global one, and none exactly if none matches |
| Pmap.Machine.PgdirWalk | kern/pmap.c:176-213 | when it creates, when it fails and when it answers null; data pages and the flat map stay |
| Pmap.Machine.PageLookup | kern/pmap.c:269-289 | the word of the flat map, or nothing |
| Pmap.Machine.PageRemove | kern/pmap.c:306-322 | exactly one slot is emptied, its TLB entry gone, its page freed exactly if nobody else maps it |
| Pmap.Machine.PageInsert | kern/pmap.c:227-262 | exactly one slot changes; it fails exactly if a table is missing and no page is free, and then the flat map is unchanged |
| Pmap.Machine.SysMemAlloc | kern/syscall_all.c:138-160 | every error case, out of memory exactly without a free page or with one and a missing table; the page that is lost; on success the slot holds a zero page that nobody else maps |
| Pmap.Machine.SysMemMap | kern/syscall_all.c:176-208 | every error case; on success both slots share one page; on failure no mapping changes |
| Pmap.ReachLimit | kern/syscall_all.c:176-208 | where page tables exist, 65534 mapping calls all succeed and leave the page with 65535 mappings |
| Pmap.Machine.SysMemUnmap | kern/syscall_all.c:220-237 | the slot is emptied; unmapped slots succeed silently |
| Pmap.Machine.TlbRefill | kern/tlbex.c:4-51 | the refilled entry is the current translation; on-demand pages are private and zero; illegal addresses are refused |
| Pmap.Machine.EnvAlloc | kern/env.c:204-295 | an empty address space under an unused ASID without TLB entries; the two failures, one of which loses a page |
| Pmap.Machine.EnvFree | kern/env.c:393-432 | nothing of the address space is left, no TLB entry has its ASID, exactly the pages only it held are free, other data is untouched |
| Pmap.Machine.Store | kern/tlbex.c:34-51 | a store changes exactly the page of the TLB entry it hits, its own or a global one |
| Pmap.Machine.Step | kern/syscall_all.c:138-237 | each kernel entry, store and eviction does what its relation says, and keeps the TLB coherent if it maps without PTE_G |
| Pmap.StepClean | kern/pmap.c:331-333 | whatever meets the relation of an entry that maps without PTE_G keeps the TLB coherent |
| Pmap.Run | kern/pmap.c:89-333 | the trace of kernel entries, stores and evictions from boot: consecutive states related by the entry between them, counts conserved in every one, and the TLB coherent if nothing is mapped with PTE_G |
| CowFork.StepInv | user/lib/fork.c:16-159 | a privately writable page has one mapping, except midway through duppage, after every step |
| CowFork.PokeRel | user/lib/fork.c:16-55 | a store reaches exactly the slots that the eager store reaches |
| CowFork.CowFaultRel | user/lib/fork.c:16-55 | a copy-on-write fault is invisible to the programs |
| CowFork.MapChildRel | user/lib/fork.c:79-107 | mapping the child corresponds to copying at once, unless the page is still writable in the parent |
| CowFork.MapParentRel | user/lib/fork.c:79-107 | remapping the parent is the moment of the eager copy |
| CowFork.StepSim | user/lib/fork.c:16-159 | each step is one event of the eager machine with the same observation |
| CowFork.CowRefinesEager | user/lib/fork.c:16-159 | along every run each load and store gives what eager copying would give |
| CowFork.CowRefinesEagerFromStart | user/lib/fork.c:120-159 | the same from any state without a fork in progress in which writable private pages are mapped once |
| CowHandler.SourceQuiet | user/lib/fork.c:38-42 | while a handler copies a page, no mapping in any live env can write it |
| CowHandler.MapBackBase | user/lib/fork.c:44-46 | mapping the scratch page back is the fault as a whole, since all words have been copied |
| CowHandler.FineStepInv | user/lib/fork.c:16-159 | the copied prefix equals the source and the scratch page is private, whatever other envs do in between |
| CowHandler.FineStepSim | user/lib/fork.c:16-159 | each step of a program or a handler is one event of the eager machine with the same observation |
| CowHandler.HandlerRefinesEager | user/lib/fork.c:16-159 | along every run, with handlers interrupted anywhere, each load and store gives what eager copying would give |
| CowHandler.HandlerRefinesEagerFromStart | user/lib/fork.c:120-159 | the same from any state without a fork or fault in progress in which writable private pages are mapped once |
| ForkRuns.CopyMoment | user/lib/fork.c:141-147 | the fork leaves a page behind exactly when it copies it, if the parent has it, and the child then has what it should |
| ForkRuns.KidData | user/lib/fork.c:79-107 | until the fork ends nobody writes a page that the child has been given |
| ForkRuns.ForkGives | user/lib/fork.c:120-159 | in every run from start to end of a fork, each page the parent had below USTACKTOP is copied exactly once: LIBRARY pages are shared, others have the contents of that moment; the child lives and has nothing else |
| ForkRuns.CowForkGives | user/lib/fork.c:120-159 | the same on the runs and events of CowFork |
| ForkRuns.HandlerForkGives | user/lib/fork.c:16-159 | the same with fault handlers interrupted anywhere |
| ForkRuns.AccessGoesOn | kern/tlbex.c:4-51 | a live env can always load from a mapped or on-demand page, and store or take the fault, except in the window |
| ForkRuns.ForkFinishes | user/lib/fork.c:141-159 | every fork in progress can be finished by its own steps |
| CowWindow.InvConverges | user/lib/fork.c:79-107 | while the sharing discipline holds, no run differs from eager copying |
| CowWindow.WindowExact | user/lib/fork.c:79-107 | after a copy-on-write fault some run differs from eager copying exactly if duppage was looking at that page |
| CowWindow.WindowReached | user/lib/fork.c:120-159 | a fork by any env with a copy-on-write page runs into that moment, and a fault there makes some later run differ |
| CowWindow.WindowExample | user/lib/fork.c:141-147 | one env, one page, two steps of fork |
| CowFork.DupIsSteps | user/lib/fork.c:79-107 | the interleaved steps on one page add up to duppage |
| CowFork.UserVm.CowEntry | user/lib/fork.c:16-55 | panics exactly for a page that is not copy-on-write; otherwise a private writable copy with the same contents, and nothing left at UCOW |
| CowFork.UserVm.Duppage | user/lib/fork.c:79-107 | the flat map after duppage |
| CowFork.UserVm.Fork | user/lib/fork.c:120-159 | every page below USTACKTOP is shared with the right permissions in both envs, nothing else changes, no data moves |
| TailQueue.RemoveMember | include/queue.h:227-234 | unlinks exactly that member and leaves its own pointers behind |
| TailQueue.RemoveAgain | include/queue.h:227-234 | removing again with nothing in between changes no pointer |
| TailQueue.InsertTailLinks | include/queue.h:201-207 | the pointers spell out the list with the element at the end |
| TailQueue.InsertHeadLinks | include/queue.h:191-199 | the pointers spell out the list with the element in front |
| TailQueue.RemoveStrangerExact | kern/env.c:431-431 | removing an element that is not queued faults exactly for a null back pointer, and keeps the queue exactly when moreover its stale pointers agree with it |
| TailQueue.NoOtherOrder | include/queue.h:227-234 | whatever such a removal leaves, the pointers spell out no other order of the same elements |
| TailQueue.RemoveNeverQueued | include/queue.h:227-234 | removing an element in zeroed memory always faults, with the end of the queue already lost |
| TailQueue.RemoveStrangerExample | user/lib/spawn.c:246-250 | one env runs and destroys a child that never ran: the removal faults |
| TailQueue.RemoveStaleExample | kern/syscall_all.c:303-313 | an env stops itself and starts another; the next removal drops the list |
| TailQueue.Queue.TailqRemove | include/queue.h:227-234 | the macro, pointer by pointer |
| TailQueue.Queue.TailqInsertTail | include/queue.h:201-207 | the macro, pointer by pointer |
| TailQueue.Queue.TailqInsertHead | include/queue.h:191-199 | the macro, pointer by pointer |
| TailQueue.Queue.ListInsertHead | include/queue.h:141-147 | the element becomes the first of a well-formed list |
| TailQueue.Queue.ListRemove | include/queue.h:155-160 | a well-formed list without exactly that element |
| TailQueue.Queue.ListInsertAfter | include/queue.h:115-122 | a well-formed list with the element behind the given one |
| Sched.ScheduleKeeps | kern/sched.c:17-60 | panics exactly on an empty list; otherwise the dispatched env is runnable and heads the list |
| Sched.StepKeeps | kern/env.c:18-18 | after every kernel entry the run list is exactly the runnable envs, each once, and env_run gets a runnable env; after those in scope the current env heads it and no receiver can run |
| Sched.StepWait | kern/sched.c:17-60 | no entry lengthens the wait of an env, and each call of schedule shortens it |
| Sched.BoundedWaiting | kern/sched.c:17-60 | an env that stays runnable is dispatched within the remaining slice plus a full slice for each env ahead, plus one |
| Sched.StepIpc | kern/syscall_all.c:362-452 | only a delivery changes message fields, only its own receive sets recving |
| Sched.Rendezvous | kern/syscall_all.c:362-452 | deliveries and blocking receives of an env alternate one to one along every run |
| Sched.MessageStays | kern/syscall_all.c:362-452 | value and sender stay until the next receive |
| Sched.BlockedIsOff | kern/syscall_all.c:362-385 | a receiving env cannot run and is not on the list in every reachable state |
| Sched.SendErrorDelivers | kern/syscall_all.c:403-452 | the message is delivered also when the page part fails, and the result says which |
| Sched.LiveIdResolves | kern/env.c:97-154 | envid2env finds a live env under its mkenvid identifier, unless that is 0, which happens exactly for slot 0 when the counter wraps |
| Sched.StatusListRight | kern/syscall_all.c:287-315 | after any call the run list is exactly the runnable envs |
| Entries.SetStatusPermission | kern/syscall_all.c:287-315 | acts on the env that the identifier names if and only if that is the caller or its child; otherwise, or if it names nobody, the answer is the error and nothing changes |
| Entries.DestroyPermission | kern/env.c:115-154 | the same for a destruction, and what becomes of the env, the list and the processor |
| Entries.YieldGives | kern/syscall_all.c:59-63 | the caller goes to the tail, the next env runs with a whole slice |
| Entries.TickExact | kern/sched.c:17-60 | within the slice only the slice changes; at its end a tick is a yield |
| Entries.RecvGives | kern/syscall_all.c:362-385 | an illegal address is refused; else the caller waits off the list and the next env runs, or there is none and the kernel panics |
| Entries.SendExact | kern/syscall_all.c:403-452 | each error in its order and without effect; else the message and the end of the list |
| Entries.ExoforkChild | kern/syscall_all.c:253-273 | the child has its creator's priority, does not run, and its creator may start, stop and destroy it unless its identifier is 0 |
| Entries.ParentStays | kern/env.c:142-149 | parent, identifier and priority stay until the slot is reused |
| Entries.CreateExact | kern/env.c:370-388 | the new env heads the list, has no parent and can run |
| Entries.IdsDistinct | kern/env.c:97-100 | identifiers are equal exactly for the same slot and counters 2^21 apart |
| Entries.OldIdGone | kern/env.c:97-100 | an identifier of an earlier env in the slot names nobody |
| RunList.DoubleInsert | include/queue.h:201-207 | inserting an element that is queued already loses another one from the list |
| RunList.StrangerBreaks | include/queue.h:227-234 | taking off an env whose stale pointers disagree leaves no list of exactly the runnable envs |
| RunList.WokenBreaks | kern/syscall_all.c:403-452 | a receiver made runnable otherwise is queued twice by the next message |
| RunList.LooseExact | kern/sched.c:17-60 | an env that took itself off the list can break it exactly if it can put an env on the empty list or take off its head |
| RunList.SoundNeverBreaks | kern/sched.c:17-60 | otherwise no sequence of entries in scope breaks the list |
| RunList.StatusBreaksExact | kern/syscall_all.c:287-315 | right after any call pointers and list are right; some entries in scope break them later exactly for a woken receiver or a caller that stops itself with such means left |
| Kernel.Kernel.Schedule | kern/sched.c:17-60 | at pointer level, the step of the scheduler, with the env possibly unlinked already |
| Kernel.Kernel.IpcRecv | kern/syscall_all.c:362-385 | the double removal leaves well-formed pointers and the specified state |
| Kernel.Kernel.IpcTrySend | kern/syscall_all.c:403-452 | every error case, the delivery and the tail insertion |
| Kernel.Kernel.SetEnvStatus | kern/syscall_all.c:287-315 | for any call: whom it may act on, the stores it makes, status and list changed together, pointers spelling exactly the runnable envs, and exactly when later entries can break that |
| Kernel.Kernel.EnvDestroy | kern/env.c:393-447 | for any target: whom it may act on and the stores it makes; an intact run list exactly when the target was runnable, or was queued before with agreeing pointers; then the specified state and the whole invariant |
| Kernel.StrangerDestroyed | kern/env.c:428-431 | the unlinking of an env that is not queued leaves pointers for exactly the runnable envs if and only if its own pointers agree |
| Kernel.Kernel.Exofork | kern/syscall_all.c:253-273 | a child that is not runnable and not queued |
| Kernel.Kernel.EnvCreate | kern/env.c:370-388 | the new env becomes the head of the list |
| Kernel.Kernel.Enter | kern/env.c:485-516 | every kernel entry: the stores it makes to the list; but for the destructions that break it, the specified step with pointers spelling exactly the runnable envs; env_run gets a runnable env; a yield rotates the list |
| PipeFifo.WrapDistance | user/lib/pipe.c:177-210 | the 32-bit difference of the counters is their distance, and they are equal exactly when the ring is empty |
| PipeFifo.NextKeeps | user/lib/pipe.c:133-210 | the ring invariant survives every load and store of either side |
| PipeFifo.Fifo | user/lib/pipe.c:133-210 | along every interleaving, bytes read are a prefix of bytes written and the distance stays in 0..32 |
| PipeFifo.ReadCall | user/lib/pipe.c:133-164 | along every run, a call for n bytes ends with the next i <= n bytes of the stream: all n, or the ring was empty and it had some or was told closed |
| PipeFifo.ReadTurn | user/lib/pipe.c:147-161 | left alone the reader takes the next byte if there is one, and otherwise ends or looks again as it should |
| PipeFifo.WriteCall | user/lib/pipe.c:177-210 | along every run, a call with data ends with data appended to the stream, or a part from its start if the ring was full and it was told closed |
| PipeFifo.WriteTurn | user/lib/pipe.c:191-205 | left alone the writer stores the next byte if there is room, and otherwise ends or looks again |
| PipeClose.NextKeeps | user/lib/fd.c:94-164 | an fd page is never mapped without its data page, whatever dup and close do |
| PipeClose.CountsDecide | user/lib/pipe.c:95-118 | equal counts mean the other end is open nowhere, and conversely when nothing is halfway |
| PipeClose.ReportSound | user/lib/pipe.c:95-118 | with unchanged env_runs, the two counts are one snapshot |
| PipeClose.ClosedIsClosed | user/lib/pipe.c:95-118 | in every interleaving a report of closed is true, and exact when no dup or close is halfway |
| PipeClose.CheckAnswers | user/lib/pipe.c:223-236 | a check called on descriptor n answers for the end that n was at the call |
| PipeClose.DupCompletes | user/lib/fd.c:116-164 | after a dup, whatever others did meanwhile, the new descriptor is the same end with its data page and all others are as before; onto itself it closes |
| PipeClose.CloseCompletes | user/lib/fd.c:94-104 | after a close both pages of the descriptor are gone and all others are as before |
| PipeClose.ExitCloses | kern/env.c:393-432 | freeing an env closes its descriptors and no others |
| PipeClose.CountsAgreeExact | user/lib/pipe.c:95-118 | the counts agree exactly if fd pages without data page balance data pages without fd page plus the fd pages of the other end; so a false report needs an fd page without its data page |
| PipeClose.ForkInProgressMisleads | user/lib/fork.c:141-147 | during a fork, a third env that checks its read end is told closed although the write end is open |
| FileBlocks.FirstFree | fs/fs.c:215-228 | the lowest free block from a given one |
| FileBlocks.WriteBack | fs/fs.c:65-76 | one bitmap block on the disk becomes the one in memory |
| FileOwnership.AllocFacts | fs/fs.c:215-248 | the lowest free block from 3, written back; failure leaves the free set alone; ownership with the block in hand |
| FileOwnership.WalkKeeps | fs/fs.c:365-400 | the walk's answer and errors; ownership kept if the new indirect block reads as zero |
| FileOwnership.WalkExact | fs/fs.c:137-150 | a new indirect block keeps ownership exactly when the chosen block reads as zero |
| FileOwnership.StaleDiskBreaks | fs/fs.c:365-400 | a disk on which it does not |
| FileOwnership.MapFacts | fs/fs.c:413-437 | the slot's block or a fresh one, all error cases, no other data slot changes, ownership kept |
| FileOwnership.MapReads | fs/fs.c:365-437 | the block number that a lookup answers, read off the struct File and its indirect block, and the two errors |
| FileOwnership.ClearFacts | fs/fs.c:441-455 | exactly one slot is emptied and exactly its block freed |
| FileOwnership.TruncateFacts | fs/fs.c:703-728 | exactly the slots from the new count up are emptied and their blocks freed, with the indirect block when at most NDIRECT stay; no slot beyond the size |
| FileOwnership.TruncateCuts | fs/fs.c:703-728 | in bytes: blocks with one of the first size bytes are kept and not free, as is the one that starts at byte size > 0; those behind are freed; no other file changes |
| FileOwnership.SetSizeCuts | fs/fs.c:732-744 | cuts the file if it shrinks and changes no slot otherwise |
| FileOwnership.TruncateGivesBack | fs/fs.c:703-728 | truncating to zero gives back every block of the file, and the free count grows by their number |
| FileOwnership.BlocksConserved | fs/fs.c:181-248 | free and referenced blocks are disjoint and together all that are not reserved |
| FileOwnership.SetSizeKeeps | fs/fs.c:732-744 | the invariant and the new size |
| FileRuns.AddFilesExact | fs/fs.c:537-571 | new struct Files keep ownership exactly when none of them names a block |
| FileRuns.GrowExact | fs/fs.c:537-571 | a new directory block keeps ownership exactly when no entry of it that shows names a block |
| FileRuns.StaleSibling | fs/fs.c:500-532 | a name and a block number in the second entry are enough to break it |
| FileRuns.FreshBlockBlank | fs/fs.c:137-150 | in a block that was not cached all entries are blank and unnamed |
| FileRuns.SweepExact | fs/fs.c:441-455 | losing the struct Files in free blocks keeps ownership exactly when they hold no block |
| FileRuns.BlockStepFacts | fs/fs.c:703-744 | which slots a clearing, truncation, resizing or removal empties, in bytes, and which blocks it frees |
| FileRuns.LossExact | fs/fs.c:795-817 | a request that frees blocks keeps ownership exactly when no struct File in them holds a block of its own |
| FileRuns.StaleReachable | fs/fs.c:195-248 | from any state with a free block, mapping, writing and clearing one block leaves a stale word in the block chosen next |
| FileRuns.RunKeeps | fs/fs.c:181-817 | over every run, each block is free, reserved or in exactly one slot; the disk's bitmap never calls a used block free; no struct File lives in a free block |
| FileServer.FileSystem.BlockIsFree | fs/fs.c:181-191 | the bit, and false beyond the disk |
| FileServer.FileSystem.FreeBlock | fs/fs.c:195-207 | one bit set; block 0 and blocks beyond the disk are ignored |
| FileServer.FileSystem.AllocBlockNum | fs/fs.c:215-228 | the lowest free block, exactly if there is one |
| FileServer.FileSystem.MapBlock | fs/fs.c:137-150 | a zero page only for a block that is not cached |
| FileServer.FileSystem.AllocBlock | fs/fs.c:232-248 | both steps, with the block given back when no page is left |
| FileServer.FileSystem.FileBlockWalk | fs/fs.c:365-400 | the slot or the error, and the state |
| FileServer.FileSystem.FileMapBlock | fs/fs.c:413-437 | the specified state, the invariant kept and the answer explained |
| FileServer.FileSystem.FileClearBlock | fs/fs.c:441-455 | the specified state |
| FileServer.FileSystem.FileTruncate | fs/fs.c:703-728 | the loops give exactly the truncated file, cut at its last byte, and the invariant |
| FileServer.FileSystem.FileSetSize | fs/fs.c:732-744 | cuts the file at its last byte when shrinking, changes no slot otherwise; the invariant and the new size |
| FileServer.TablesHeld | fs/fs.c:93-133 | read_block never panics on a file's indirect block |
| FsFormat.LinkKeeps | tools/fsformat.c:136-184 | linking a block at an unused index keeps the server's invariant on the image and adds exactly that link |
| FsFormat.ServerAgrees | fs/fs.c:365-437 | on the finished image file_map_block finds exactly the linked blocks, and not-found or invalid beyond |
| FsFormat.InOrderDistinct | tools/fsformat.c:172-184 | all linked blocks are distinct |
| FsFormat.InitialBitmap | tools/fsformat.c:115-125 | exactly the blocks of the disk are marked free |
| FsFormat.Formatter.constructor | tools/fsformat.c:105-133 | the empty disk satisfies the server's invariant |
| FsFormat.Formatter.NextBlock | tools/fsformat.c:136-139 | the next block number |
| FsFormat.Formatter.SaveBlockLink | tools/fsformat.c:172-184 | the specified link, with the indirect block taken after the data block |
| FsFormat.Formatter.WriteFile | tools/fsformat.c:250-279 | the blocks read are the file's blocks in order, hold their data, are distinct, and no other file changes |
| FsFormat.Formatter.MakeLinkBlock | tools/fsformat.c:187-192 | a zero block behind the directory's last one, and the new size |
| FsFormat.Formatter.FlushBitmap | tools/fsformat.c:142-148 | exactly the blocks below nextbno are marked used, and the image satisfies the invariant that the server keeps in every run |
| Paths.ComponentsSplit | fs/fs.c:575-616 | slashes separate components, however many there are |
| Paths.JoinComponents | fs/fs.c:575-616 | every list of names is the component list of a path |
| Paths.OneDepth | fs/fs.c:590-651 | a file is reached in one directory at one depth |
| Paths.ResolveExact | fs/fs.c:590-651 | each answer of the walk, by the entries it passes: where the path leads, a component too long, or only the last one missing |
| Paths.OpenExact | fs/fs.c:590-661 | the file the path leads to, bad-path exactly if the walk meets a component that is too long, and else not-found |
| Paths.CreateFacts | fs/fs.c:669-689 | whatever a new directory block holds: the path is found as the new entry and found paths are found as before; no other path becomes found exactly when nothing stale shows; a blank block keeps the tree and unique names |
| Paths.CreateEnters | fs/fs.c:537-571 | the entry gets the name and type, and everything else stays |
| Paths.UnseenNothingElse | fs/fs.c:537-571 | with nothing of the new block showing, only the created path becomes found |
| Paths.SeenSomethingElse | fs/fs.c:537-571 | otherwise some other path becomes found |
| Paths.StaleNameExample | fs/fs.c:537-571 | creating one file brings the name of a removed one back |
| Paths.RemovedNotFound | fs/fs.c:795-817 | after removing a file other than the root its path is missing exactly when no other entry has its name |
| Paths.RemovedOpens | fs/fs.c:795-817 | after a removal without a namesake, opening the path answers not-found |
| Paths.RemoveResolve | fs/fs.c:795-817 | with unique names exactly the paths through the removed file are lost |
| Paths.RemoveKeeps | fs/fs.c:795-817 | the tree stays a tree with unique names |
| Paths.SkipSlash | fs/fs.c:575-580 | skipping slashes does not change the components |
| Paths.FileTree.DirLookup | fs/fs.c:500-532 | the first entry of that name |
| Paths.FileTree.DirAllocFile | fs/fs.c:537-571 | the first unused entry, or the first of a new block with whatever contents |
| Paths.FileTree.WalkPath | fs/fs.c:590-651 | the answer, with directory and last component, is a function of the path's components |
| Paths.FileTree.FileOpen | fs/fs.c:659-661 | the file that the entries lead to, or bad-path or not-found, each exactly when it applies |
| Paths.FileTree.FileCreate | fs/fs.c:669-689 | each error exactly when it applies; on success opening the path gives the new entry with its name and type, no found path changes, and nothing else appears exactly when nothing stale shows |
| Paths.FileTree.FileRemove | fs/fs.c:795-817 | each error exactly when it applies; on success opening a non-root path then answers not-found unless the directory has a namesake, and with unique names exactly the paths through the file are lost |
| ElfLoad.CallsSound | kern/env.c:297-329 | every call of the mapper copies within its page and within the file |
| ElfLoad.OnceExact | lib/elfloader.c:25-59 | every page of the segment is mapped exactly once if and only if the segment fits |
| ElfLoad.LoadsImage | lib/elfloader.c:25-59 | for a segment that fits, exactly its pages are mapped, with the file's bytes and zeros |
| ElfLoad.SegmentBytes | lib/elfloader.c:25-59 | byte k is the file's below p_filesz and zero up to p_memsz |
| ElfLoad.MisfitLosesFile | lib/elfloader.c:51-57 | for a segment that does not fit, the first page reads as zero |
| ElfLoad.LoadedExact | lib/elfloader.c:25-59 | the image is right exactly if the segment fits, or the file's bytes are all zero and the last page is reached or was a zero page already |
| ElfLoad.MisfitExample | lib/elfloader.c:51-57 | a segment whose one byte is lost |
| ElfLoad.MisfitUnmapped | lib/elfloader.c:51-57 | a segment without file bytes whose last page stays unmapped |
| ElfLoad.AddressSpace.MapPage | kern/env.c:309-329 | a new page at that address, the replaced page given back, a page taken for a missing table, and the page lost when there is none |
| ElfLoad.NeedExact | kern/env.c:309-329 | on unmapped pages the calls succeed exactly if there is a free page for each and for each new page table |
| ElfLoad.FitsNeed | lib/elfloader.c:25-59 | the same for a segment that fits |
| ElfLoad.AddressSpace.ElfLoadSeg | lib/elfloader.c:25-59 | the loops make the specified calls up to the first failure; the resulting space, and the image for a segment that fits |
| InitStack.FlatPrefix | user/lib/spawn.c:33-46 | where each string lies in the string area |
| InitStack.ArgsAligned | user/lib/spawn.c:20-27 | pointer array and strings do not overlap, all within the page, stack pointer aligned |
| InitStack.ArgsRoundTrip | user/lib/spawn.c:48-71 | argc and argv read through the child's addresses are the original strings |
| InitStack.LastWord | user/lib/spawn.c:57-59 | args[argc] is the address below USTACKTOP and not null |
| InitStack.CopyStrings | user/lib/spawn.c:33-46 | the top of the page holds the strings with their zeros |
| InitStack.StoreArgs | user/lib/spawn.c:48-59 | the pointer array is complete and the strings are intact |
| InitStack.MarshalArgs | user/lib/spawn.c:8-71 | fails exactly when the arguments do not fit, without touching the page; otherwise the marshalled page and the stack pointer |
| PrintNum.NumeralValue | lib/print.c:228-238 | the numeral of a number has its value |
| PrintNum.NumeralFits | lib/print.c:223-238 | a 32-bit number has at most 32 digits |
| PrintNum.FormattedLength | lib/print.c:244-248 | the output length is the larger of width and digits plus sign |
| PrintNum.Placement | lib/print.c:244-284 | where sign, digits, zeros and blanks stand, for each adjustment and padding |
| PrintNum.BodyExact | lib/print.c:228-238 | the digits have the number's value, the case asked for and no leading zero |
| PrintNum.FormattedParses | lib/print.c:211-284 | parsing the output gives back value and sign, for every base, width, adjustment and padding |
| PrintNum.PutDigits | lib/print.c:228-238 | the digits in reverse, within the buffer |
| PrintNum.ReverseFirst | lib/print.c:265-281 | the first part is reversed in place, the rest stays |
| PrintNum.PrintNum | lib/print.c:211-284 | the output is the sign, digits and padding in the right order |
| PrintNum.PrintDecimal | lib/print.c:85-104 | every 32-bit integer parses back, the least one included, with its parts in place and the length asked for |
| PrintNum.PrintUnsigned | lib/print.c:76-142 | the bits as an unsigned number parse back, with their parts in place and the length asked for |

## Left out

- The UVPT window and the kernel half of the address space: page tables and TLB are modelled below UTOP.
- Pmap.Run: has no runs that both map with PTE_G below UTOP and store, because a store through a stale entry can hit a page in another use.
- Sched.BoundedWaiting: is about runs of entries in scope, because other runs can lose the run list.
- RunList.StatusBreaksExact: follows the call by entries in scope only, because a destruction outside it can fault from every state.
- Paths.FileTree.DirAllocFile: does not model the directory's size, which a failed allocation has already raised; FileRuns.GrowOp has it.
- Paths.FileTree.FileCreate: the same.
- Stores of cow_entry to its own exception stack: an env in its handler takes the handler's steps only.
- The kernel's free lists are sequences in Pmap; the LIST macros themselves are verified at pointer level in TailQueue.
- Contents of the trap frame, registers and kernel stacks: kernel entries are atomic steps.
- Devices, the console and the IDE driver: the disk is an array of blocks, and a failing page allocation is a parameter.
- Permission checks on env identifiers in the memory calls: a call names the env it resolved to.
- Envs in one run of Pmap get identifiers from their caller; the env free list is not modelled.
- 32-bit wrap-around of env_runs, of a print width, and of addresses in elf_load_seg.
- Failing calls inside cow_entry and duppage, which the source does not check.
- Fork and spawn as steps of PipeClose: they are taken as finished; ForkInProgressMisleads shows why.
- End of file from pipe_read is not tied to having read every byte: the empty test and the closed test are separate steps.
- Struct File lives in directory blocks in the source. FileRuns reads entries out of blocks only where a new directory block shows them; elsewhere files have numbers, and in Paths places.
- Errors of file_get_block inside dir_lookup.
- Dirty blocks, file_flush and crash consistency: only the bitmap's copy on the disk is tracked.
- The search of create_file in the formatter, host directories and the byte swapping of the image.
- spawn_mapper, the loader callback of spawn: only the kernel's callback is modelled.
- Formats %c and %s, and the scanning of the format string.
- InitStack.MarshalArgs: does not model the system calls around the page, because only the contents of the page matter to the round trip.
- The file server's request loop, the shell, user commands, environment variables and the current path.

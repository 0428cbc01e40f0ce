# JOS memory, processes and scheduling, fisopfs and the pipe sieve: a verified model

This project states and proves what three programs of the repository are for:

* **TP2-sched**, the JOS kernel and its user library: the reference-counted page allocator and
  two-level page tables, copy-on-write fork on top of the page system calls, environments on
  several CPUs under one lock, two schedulers, environment ids, the user page-fault upcall, the
  symbol-table search, and the number printer and parser.
* **TP3-fisopfs**, a file system that keeps one flat table of inodes looked up by full path and,
  inside every directory inode, a table of entries.
* **TP0-fork**, the prime sieve as a chain of processes joined by pipes.

Code that updates state in place is modelled by classes over arrays (`Pmap.Kernel`,
`Sched.Scheduler`, `EnvIds.EnvTable`, `EnvMemory.Envs`, `Upcall.Cpu`, `Fisopfs.FileSystem`,
`PrintParse.Console`)
and by methods with the source's loops. Each method is proved against a function or relation on
values, and the laws are lemmas about those. Concurrent code (several CPUs, interleaved
environments, the spin lock, the process network, hardware cache fills) is a step relation, and
the theorems range over all runs of it.

## How the pieces fit

* `Mmu`, `Vm`, `Pmap`, `AddressSpaces`: `Vm` is the abstract memory state (directories, page
  tables, mappings, pages in hand). The reference count of a page is a *function* of it, and so
  is the set of free pages. `Pmap.Kernel` holds the source's concrete state, the `PageInfo` array
  with its linked free list and physical frames full of page-table words, and its `Valid()` says
  that the frames hold exactly the tables of `Vm`, every `pp_ref` is the count, and the free list
  is exactly the free pages. `Allocation` runs its operations in any order from `page_init` on.
  `Tlb` breaks the same operations into single stores.
* `Cow`, `Fork`: the lazy machine of `fork.c` refines an eager one that copies at fork, step by
  step and over whole runs; a fault handler and a duplication are sequences of steps that others
  may interrupt anywhere. The methods of `Fork` take those steps on `Pmap.Kernel` and say exactly
  when memory suffices.
* `Smp`, `SmpLives`, `Spinlock`, `Sched`, `SchedRuns`, `EnvIds`: the environment state machine with
  its invariant, what becomes of an environment and of a CPU over its runs, the lock below it, the
  schedulers, the runs of one CPU pick by pick, and the ids.
* `Words`, `WordForms`: the numbers 32-bit words stand for, and the source's shifts, masks and ors
  on addresses and ids.
* `EnvMemory`, `PageCalls`: the slots of `EnvIds` with the directories of `Pmap`, one to one, and the
  page system calls with the lookup by id.
* `Upcall`, `UserMem`: the exception frame in byte-addressed memory, pushed by the kernel and
  unwound by the assembly, at any nesting depth; the check of user addresses before it.
* `Stab`, `PrintParse`: the binary search and the print/parse round trip.
* `Fs`, `FsLinks`, `FsOps`, `FsRefine`, `FsFiles`, `FsRuns`, `Fisopfs`: the disk image refines a
  map from paths to directories and byte sequences. `Fs.Inv` is the agreement of the two views;
  `FsOps.Make`, `Unlink`, `Rmdir` and `FsFiles.Read`, `Write`, `Truncate` are the operations on
  the image; `Fisopfs.FileSystem` is the program with its loops.
* `Primes`, `Sieve`, `SieveRuns`, `SieveResults`, `SieveEnds`: the streams of the sieve, the process
  network with its open pipe ends, the invariant, the results, and who has which end open.

## Where the code and its documentation or standard differ

The model follows the code; each point below is part of a proved contract.

* The guard before the panic in `pgfault` combines 0-or-2 with 0-or-1 by a bitwise and, so it is
  always zero: a write fault on any mapped page gets a private writable copy, copy-on-write or
  not (`Cow.PgfaultNeverPanics`).
* The comment on `stab_binsearch` promises an empty result when no entry contains the address.
  When all entries of the type start above the address the result is not empty, and an exact
  match at the largest word always gives a wrong one (`Stab.DocumentedIff`, `Stab.MaxWordFails`).
* The round-robin scan begins at curenv itself, so a curenv that is runnable when it yields is
  picked again whoever waits (`Sched.RobinRepicksRunnable`).
* `sys_page_alloc` does not give the page back when no page table can be had: the page stays in
  hand exactly when it was the only free one and a table is needed (`Fork.SysPageAlloc`,
  `Fork.PageIsKept`).
* The reset of the priority scheduler also brings runnable environments above 10 back to the
  minimum; until then they are never picked, and without a reset they starve
  (`SchedRuns.AboveLimitWaits`, `SchedRuns.StarvesAbove`).
* A pick by priority counts the run twice, in its statistics and again in `env_run`
  (`Sched.PickEffects`).
* fisopfs: when the parent's table is full, create and mkdir leave the new inode occupied with no
  entry (`FsRefine.OverflowBreaks`); a write of no bytes past the end extends the file or, beyond
  4096, fails, where POSIX `pwrite` changes nothing and succeeds (`FsFiles.WriteRefines`); in a directory right under the root
  ".." carries inode 0, the "empty" mark, so the first child takes its slot and `tam` counts one
  entry too many (`Fs.TableOk`).
* The first exception frame lies 53 bytes under UXSTACKTOP, so it is not word aligned
  (`Upcall.FrameAt`); the round trip does not need it to be.
* `fork` needs a free page, or two, for its own stack: the page loop shares it, so the next push
  faults (`Fork.ForkChild`).
* `user_mem_check` rounds the end of the range in 32 bits, so its promise holds only for ranges that
  end a page below 2^32 or are refused for their end (`UserMem.RightIff`).
* A format with the minus flag pads numbers with '-' (`PrintParse.MinusPadIff`).

## Model

| member | source | states |
|---|---|---|
| Mmu.PgaddrInverse | TP2-sched/inc/mmu.h:32-42 | taking a linear address built from a directory index, a table index and an offset apart gives back the three parts |
| Mmu.PgaddrOfFields | TP2-sched/inc/mmu.h:25-42 | building an address from its own three parts gives back the address, for every 32-bit address |
| WordForms.PgaddrBitsOfFields | TP2-sched/inc/mmu.h:32-42 | the same for the shift-and-mask form of the macros on machine words |
| WordForms.FieldsOfPgaddrBits | TP2-sched/inc/mmu.h:32-42 | the shift-and-mask form also takes built addresses apart correctly |
| WordForms.WordFields | TP2-sched/inc/mmu.h:32-39 | on every 32-bit word the shifts and masks compute the same directory index, table index and offset as the divisions and remainders used in the rest of the model |
| WordForms.WordAddress | TP2-sched/inc/mmu.h:41-42 | shifting and or-ing the three fields computes the same address as the multiplications and additions |
| WordForms.WordFlags | TP2-sched/inc/mmu.h:56-73 | the tests of the flags P, W, U and copy-on-write on numbers are tests of the bits 0x001, 0x002, 0x004 and 0x800 of the word |
| WordForms.SyscallBits | TP2-sched/inc/mmu.h:68-73 | the permissions the page calls accept are exactly the words with no bit outside 0xE07 |
| Vm.TakeKeeps | TP2-sched/kern/pmap.c:346-360 | taking a page off the free list moves no reference count and makes exactly that page not free |
| Vm.HoldKeeps | TP2-sched/kern/pmap.c:499 | raising the count of a page before it is named adds exactly one reference to exactly that page |
| Vm.ReleaseKeeps | TP2-sched/kern/pmap.c:383-388 | dropping a count takes one reference from one page, which becomes free exactly if it was the last |
| Vm.InstallKeeps | TP2-sched/kern/pmap.c:501-502 | writing a counted page into an empty entry keeps every count and the free pages |
| Vm.UnmapKeeps | TP2-sched/kern/pmap.c:549-568 | clearing an entry takes one reference from the page it named, which becomes free exactly if it was the last |
| Vm.AddTableKeeps | TP2-sched/kern/pmap.c:412-429 | a fresh page table gains one reference, its directory entry, and nothing else changes |
| Vm.DropTableKeeps | TP2-sched/kern/env.c:439-441 | clearing a directory entry of an emptied table keeps every count until the table's own count is dropped |
| Vm.AddRootKeeps | TP2-sched/kern/env.c:160-194 | a new page directory has one reference and is not free |
| Vm.DropRootKeeps | TP2-sched/kern/env.c:444-447 | giving up an emptied directory keeps every count until its own count is dropped |
| Vm.CountedPositive | TP2-sched/inc/memlayout.h:182-187 | a page has a positive count exactly when a directory, a directory entry, a table entry or the kernel names it |
| Pmap.LinkedNoDuplicates | TP2-sched/kern/pmap.c:346-377 | the linked free list is acyclic, stays in bounds and has no page twice |
| Pmap.Kernel.constructor | TP2-sched/kern/pmap.c:128-245 | a machine with zeroed page structures and nothing to allocate satisfies the invariant |
| Pmap.Kernel.PageInit | TP2-sched/kern/pmap.c:291-332 | the pages handed to the allocator are exactly those of the machine whose physical address is none of 0, 0x7000, an address in [0xA0000, 0x100000), or one from 0x100000 below the end of the kernel |
| Pmap.Kernel.Pop | TP2-sched/kern/pmap.c:346-360 | the list loses exactly its head and stays linked, the page's link is cleared, and no count changes |
| Pmap.Kernel.PageFree | TP2-sched/kern/pmap.c:366-377 | neither panic is reachable for an unreferenced page that is not on the list; the page becomes the head and the list stays linked |
| Pmap.Kernel.PageDecref | TP2-sched/kern/pmap.c:383-388 | the count of one page drops by one, never below zero, and the page joins the list exactly when it reaches zero |
| Pmap.Kernel.PageAlloc | TP2-sched/kern/pmap.c:346-360 | fails exactly when no page is free and then changes nothing; otherwise takes a free page in hand, zeroed if asked, and touches no other frame |
| Pmap.Kernel.PgdirWalk | TP2-sched/kern/pmap.c:412-429 | finds the page table behind an address, makes one exactly when asked and a page is free, writing its address with the bits P, W and U, and leaves all mappings as they are |
| Pmap.Kernel.PageLookup | TP2-sched/kern/pmap.c:518-532 | returns the page and permissions mapped at the address or NULL, and changes nothing: the logical-and test decides presence because every user entry is zero or present |
| Pmap.Kernel.PageRemove | TP2-sched/kern/pmap.c:549-568 | removes exactly the mapping at the named address of the named directory and writes to no frame but a page table |
| Pmap.Kernel.PageInsert | TP2-sched/kern/pmap.c:489-505 | fails exactly when a page table is needed and no page is free, and then changes nothing; otherwise sets exactly the named mapping and keeps all counts exact, also for a page re-inserted at its own address |
| Pmap.Kernel.EnvSetupVm | TP2-sched/kern/env.c:160-194 | a free page becomes a directory with the kernel's entries and, at UVPT, its own address with the bits P and U, or nothing changes |
| Pmap.Kernel.FreeTableEntries | TP2-sched/kern/env.c:434-437 | the inner loop removes all mappings of one table and no others |
| Pmap.Kernel.FreeTable | TP2-sched/kern/env.c:439-441 | the table's directory entry and its one count go together |
| Pmap.Kernel.EnvFree | TP2-sched/kern/env.c:406-448 | through both loops the result is the state without the directory and everything below it, with counts and free list exact |
| Pmap.SelfPdeParts | TP2-sched/kern/env.c:190-194 | the self-mapping entry names the directory and is present and readable for the user, but not writable |
| Allocation.ServeAll | TP2-sched/kern/pmap.c:291-360 | after page_init and any sequence of allocations, insertions, sharings, removals, new and freed address spaces: no page page_alloc ever returned, and no page used for a directory, a page table or a mapping, lies in the reserved ranges |
| AddressSpaces.WalkIsTranslate | TP2-sched/kern/pmap.c:412-429 | the MMU's walk over the frames, which looks at present bits, translates every user address as the finite map does |
| AddressSpaces.InsertTranslates | TP2-sched/kern/pmap.c:489-568 | inserting or removing changes the translation of the addresses on the named page of the named directory and of nothing else |
| AddressSpaces.InsertCounts | TP2-sched/kern/pmap.c:489-505 | over a whole page_insert the inserted page gains one reference, the displaced page loses one, a new table has one |
| AddressSpaces.ReinsertNeverFrees | TP2-sched/kern/pmap.c:489-505 | putting a page back at its own address moves no count and frees nothing |
| AddressSpaces.OnePurpose | TP2-sched/kern/pmap.c:346-388 | every allocatable page is free, a directory, a page table or data, and exactly one of these |
| AddressSpaces.TablesAreUnshared | TP2-sched/kern/pmap.c:412-429 | a page table and a directory are referenced exactly once |
| AddressSpaces.EnvFreeGivesBack | TP2-sched/kern/env.c:406-453 | each page loses exactly the references the environment held; the pages that join the free list are exactly those only it referenced; every other address space translates as before |
| AddressSpaces.UvpdReads | TP2-sched/inc/memlayout.h:150-164 | a load at uvpd[d], walked by the MMU through the self-mapping, reads entry d of the page directory |
| AddressSpaces.UvptReads | TP2-sched/inc/memlayout.h:150-164 | a load at uvpt[pn], walked by the MMU through the self-mapping, reads the page-table entry of page pn |
| Tlb.StepKeepsInv | TP2-sched/kern/pmap.c:574-580 | every single store, invalidation, directory load and hardware fill keeps the agreement, except for the one entry about to be invalidated |
| Tlb.TlbAgreesAlways | TP2-sched/kern/pmap.c:549-580 | over any run on one CPU, with hardware caching and evicting at will, every cached translation is the page table's whenever no invalidation is pending |
| Tlb.LastStoreStands | TP2-sched/kern/pmap.c:489-568 | over any run an entry is what the last store to it made it |
| Tlb.CachedIsLastStore | TP2-sched/kern/pmap.c:549-580 | so what the hardware has cached of the loaded directory, with no invalidation pending, is what the kernel stored last |
| Tlb.LoadsCurenv | TP2-sched/kern/env.c:494-530 | a load of cr3 always loads curenv's directory, or the kernel's when there is no curenv, and empties the cache |
| Tlb.LoadedChanges | TP2-sched/kern/env.c:406-448 | the loaded directory changes only so, at the start of load_icode, and when curenv itself is freed |
| Tlb.CurenvChanges | TP2-sched/kern/env.c:494-514 | curenv changes at env_run, at sched_halt, and when it is itself freed |
| Tlb.RootsChange | TP2-sched/kern/env.c:160-194 | a directory is there from its allocation to the end of its env_free, which leaves nothing mapped in it |
| Tlb.Removes | TP2-sched/kern/pmap.c:549-580 | page_remove can always run to its end; then the entry is gone, no other has changed, and the cache of its directory has it no longer |
| Tlb.Switches | TP2-sched/kern/env.c:494-530 | env_run can always run to its end; then the environment is curenv on its own tables with nothing cached |
| Tlb.Halts | TP2-sched/kern/sched.c:188-191 | sched_halt can always run to its end; then there is no curenv and the kernel's tables are loaded |
| Tlb.Loads | TP2-sched/kern/env.c:320-382 | load_icode runs on the new directory and comes back to the kernel's with what it inserted |
| Tlb.Comes | TP2-sched/kern/env.c:160-194 | a new directory changes nothing else on the CPU |
| Tlb.Caches | TP2-sched/kern/pmap.c:574-580 | the hardware can cache any present entry of the loaded directory, as it is, and drop it again |
| Tlb.Goes | TP2-sched/kern/env.c:406-476 | freeing an environment takes its directory away and leaves the CPU on its tables unless it is curenv that goes |
| Tlb.BootInv | TP2-sched/kern/pmap.c:128-245 | a CPU that has just loaded the kernel directory starts in agreement |
| Cow.PgfaultNeverPanics | TP2-sched/lib/fork.c:28-29 | the guard of pgfault is zero for every error code and entry |
| Cow.DupPerm | TP2-sched/lib/fork.c:61-96 | the permissions duppage gives: never writable, copy-on-write exactly if writable or copy-on-write before, cache-control bits kept |
| Cow.StoreRefines | TP2-sched/lib/fork.c:61-96 | a store through a writable entry changes one environment's view at one address, because a writable page has one mapping |
| Cow.FaultAllocRefines | TP2-sched/lib/fork.c:37-39 | the handler mapping a fresh page at PFTEMP changes nobody's view and keeps the sharing invariant |
| Cow.FaultCopyRefines | TP2-sched/lib/fork.c:42 | so does each single word of its memmove, with anything in between |
| Cow.FaultMapRefines | TP2-sched/lib/fork.c:43-44 | once the last word is copied the page at PFTEMP equals the one still mapped at the address, so mapping it there changes nobody's view |
| Cow.FaultUnmapRefines | TP2-sched/lib/fork.c:46-47 | unmapping PFTEMP ends the handler and changes nobody's view |
| Cow.TwoFaults | TP2-sched/lib/fork.c:14-48 | two environments that fault on one page and are each cut off between copying and remapping end with different pages, everyone's view as it was |
| Cow.DupFirstRefines | TP2-sched/lib/fork.c:80-83 | the call that maps a writable page for the child, alone, changes nobody's view and keeps the sharing invariant, whatever comes before the next one |
| Cow.DupLastRefines | TP2-sched/lib/fork.c:85-87 | the call that then protects the parent's own entry shows the child the contents an eager copy at that moment would |
| Cow.DupOnlyRefines | TP2-sched/lib/fork.c:88-92 | sharing a read-only page in one call shows the child the same contents an eager copy would |
| Cow.AllocRefines | TP2-sched/kern/syscall.c:228-247 | mapping a fresh page shows zeros at that address and nothing else changes |
| Cow.DropRefines | TP2-sched/kern/syscall.c:301-317 | unmapping removes one address from one view |
| Cow.ExitRefines | TP2-sched/kern/env.c:406-453 | an environment's exit removes its view and leaves the others as they were |
| Cow.CowRefinesEager | TP2-sched/lib/fork.c:14-96 | for every interleaving of stores, allocations, unmappings and exits of any environments with the single steps of any number of fault handlers and the single calls of any number of duppages, each environment sees exactly what private copies taken at duplication would show |
| Cow.RemapInHandler | TP2-sched/lib/fork.c:42-44 | the condition that nobody else remaps a faulting address during the handler is needed: a page put there before the last call is overwritten, visibly unless the old one was all zeros |
| Cow.FaultThenStore | TP2-sched/lib/fork.c:14-48 | all steps of a handler followed by the store it held up are together one eager store |
| Cow.FaultEnables | TP2-sched/lib/fork.c:14-48 | when a handler returns, whatever others did meanwhile, the faulting store is let through |
| Fork.SharedPageRefs | TP2-sched/inc/memlayout.h:182-187 | under fork's sharing a data page is referenced at most once per environment, so sixteen bits suffice |
| Fork.SysPageAlloc | TP2-sched/kern/syscall.c:228-247 | rejects exactly the bad addresses and permissions, changing nothing; else fails exactly if no page is free, changing nothing, or if one page is free and a page table is needed, keeping that page in hand; else maps one zeroed page at the address |
| Fork.PageIsKept | TP2-sched/kern/syscall.c:228-247 | a state, for any user address, in which the one free page ends up neither free nor referenced |
| Fork.SysPageMap | TP2-sched/kern/syscall.c:265-292 | rejects exactly bad addresses, unmapped sources and writable mappings of read-only pages; else fails exactly if the destination needs a page table and no page is free; else maps the source's page at the destination only |
| Fork.SysPageUnmap | TP2-sched/kern/syscall.c:301-317 | removes the mapping at an aligned user address and nothing else |
| Fork.ReadUvpt | TP2-sched/lib/fork.c:216-233 | what a program loads at uvpd and uvpt, through the MMU and the self-mapping, says whether its page is mapped and with which permissions |
| Fork.DupPage | TP2-sched/lib/fork.c:61-96 | duppage succeeds exactly if the child has the page table or a page is free for it; then its system calls are, one by one, the sharing steps of the lazy machine, the sharing invariant holds and at most that page is taken |
| Fork.CopyPage | TP2-sched/lib/fork.c:42 | memmove, word by word through the MMU's translation, takes the copying steps of the lazy machine and makes the frame at PFTEMP equal to the faulting page's |
| Fork.PgFault | TP2-sched/lib/fork.c:14-48 | the handler succeeds exactly if one page is free, or two when PFTEMP has no page table; then its calls and copied words are, one by one, the steps of the lazy machine for any mapped page, and what it takes and gives back of the free pages is exact |
| Fork.FaultedFree | TP2-sched/lib/fork.c:38-47 | a whole fault takes one free page, and a second one if PFTEMP has no page table, and gives back exactly the pages that only the two addresses mapped |
| Fork.PushOnStack | TP2-sched/lib/fork.c:206-251 | a push on a stack that is mapped and not writable runs the handler and changes nobody's view; it fails exactly if the handler lacks pages |
| Fork.DupAll | TP2-sched/lib/fork.c:206-237 | the page loop completes exactly if there is a free page for each page table the parent's pages need, and then the child has received a copy of each visible page of the parent and nothing else changed; each page is then the child's too and no longer writable for the parent |
| Fork.ChildPages | TP2-sched/lib/fork.c:206-237 | with the child's directory before it; the stack fork runs on comes out shared, so that the next push faults and the fault gives no page back |
| Fork.ForkChild | TP2-sched/lib/fork.c:206-251 | succeeds exactly if there are free pages for the directory, the page tables, the child's exception stack and the fault of the parent's own stack, which the page loop has made copy-on-write; then the child sees the parent's visible pages as they were and nothing more, everyone else sees what they saw, the child has a fresh zeroed exception stack and the parent a writable stack |
| Smp.StepPreserves | TP2-sched/kern/trap.c:244-301 | every step of every CPU outside the excluded transitions keeps the invariant |
| Smp.RunPreservesInv | TP2-sched/kern/trap.c:244-301 | so does every run |
| Smp.BootInv | TP2-sched/kern/init.c:119-136 | the state in which the boot CPU calls sched_yield, the other CPUs having started and waiting for the lock in mp_main, satisfies it |
| Smp.OneCpuPerEnv | TP2-sched/kern/env.c:494-530 | in every reachable state with no CPU in the kernel an environment is running or dying exactly when it is curenv of exactly one CPU |
| SmpLives.OnlyThese | TP2-sched/kern/env.c:461-476 | the complete list of ways a status changes: which step, by which CPU, from which status to which |
| SmpLives.TheseDo | TP2-sched/kern/syscall.c:138-187 | what each call does to each environment: sys_env_set_status leaves exactly the status asked for, exofork a child that is not runnable, a destruction from another CPU a dying one, and nobody else changes |
| SmpLives.DyingOnlyDies | TP2-sched/kern/trap.c:273-277 | over any run a dying environment is dying or free until its slot is given to a new child |
| SmpLives.DestroyedForGood | TP2-sched/kern/env.c:461-476 | an environment destroyed from another CPU is dying or free ever after, and free once no CPU has it, until its slot is given to a new child |
| SmpLives.ReapedIsFree | TP2-sched/kern/trap.c:273-277 | the trap that finds its environment dying frees it for good and goes on to the scheduler without one |
| SmpLives.NoWorkForTheDying | TP2-sched/kern/trap.c:263-301 | in every reachable state no CPU works for, chooses or runs an environment that is dying or free |
| SmpLives.ChildWaits | TP2-sched/kern/syscall.c:138-160 | over any run a new child stays not runnable, whatever is sent, until somebody sets its status |
| SmpLives.ReturnsTo | TP2-sched/kern/trap.c:294-300 | a call that leaves curenv running returns to it, in every interleaving, within three steps of its CPU |
| SmpLives.ReturnsUnchanged | TP2-sched/kern/trap.c:294-300 | alone, that return changes nothing else and frees the lock |
| SmpLives.TrapEnters | TP2-sched/kern/trap.c:263-271 | with the lock free a trap from user mode takes it and enters the kernel for the same environment |
| SmpLives.HaltedWakes | TP2-sched/kern/trap.c:256-259 | with the lock free an interrupt wakes a halted CPU into the kernel with the lock |
| SmpLives.HaltsOrStays | TP2-sched/kern/sched.c:167-199 | sched_halt halts without environment or lock exactly if some environment is runnable, running or dying, and otherwise stays in the monitor with the lock |
| SmpLives.NobodyFound | TP2-sched/kern/sched.c:62-67 | when nobody is found the CPU runs its curenv again if that is running, and otherwise goes to sched_halt |
| SmpLives.SurvivesCheck | TP2-sched/kern/trap.c:273-277 | a trapped environment that is not dying goes on to its call, with nothing changed |
| SmpLives.CallsPossible | TP2-sched/kern/syscall.c:138-187 | exactly which calls get through: a status write or a destruction of a slot in use, a child in any free slot, a send to whoever waits for one; without an environment only the interrupt |
| SmpLives.CallsLead | TP2-sched/kern/trap.c:285-301 | where each call leads its CPU, and that it moves no other: to the scheduler from a timer interrupt, a receive or its own destruction, back into the environment after a handled fault, and otherwise to the end of trap |
| SmpLives.SchedulerDecides | TP2-sched/kern/sched.c:117-133 | at the scheduler anybody runnable can be picked, and round robin finds nobody exactly if nobody is runnable |
| SmpLives.PickedRuns | TP2-sched/kern/env.c:494-530 | whoever is picked is run: curenv, running, recorded on this CPU, the lock free, and the only other change is that an old curenv still running steps down |
| SmpLives.StartedYields | TP2-sched/kern/init.c:119-136 | a CPU that starts waits for the lock and goes to the scheduler with it |
| Smp.LockDiscipline | TP2-sched/kern/trap.c:256-300 | in every reachable state at most one CPU is in the kernel, no trap takes the lock twice, and sched_halt is never entered with a running curenv |
| Smp.HarmlessIsExact | TP2-sched/kern/syscall.c:167-187 | a status write, a send or a destruction keeps the invariant if and only if its target is not on another CPU, or is not already dying |
| Smp.SendsAreHarmless | TP2-sched/kern/syscall.c:356-422 | in every run in which no receive fails and no parent makes a waiting child runnable, a send never reaches an environment on a CPU |
| Spinlock.StepKeepsInv | TP2-sched/kern/spinlock.c:60-124 | every single memory access keeps the owner field and lock word consistent |
| Spinlock.BootInv | TP2-sched/kern/spinlock.c:46-54 | a lock as initialised, with all CPUs outside, satisfies the invariant |
| Spinlock.MutualExclusion | TP2-sched/kern/spinlock.c:60-124 | in every interleaving from boot at most one CPU is inside, and the lock word is set exactly when one is |
| Spinlock.LockSucceeds | TP2-sched/kern/spinlock.c:60-83 | wherever a run has led, if the lock is free a CPU outside that calls spin_lock and goes on alone is inside and the owner after four steps, and no other CPU is |
| Spinlock.UnlockSucceeds | TP2-sched/kern/spinlock.c:86-124 | a CPU inside that calls spin_unlock and goes on alone is outside after five steps, counting the call, with the word clear and no owner |
| Spinlock.FirstGetsIt | TP2-sched/kern/spinlock.c:73-74 | of several CPUs at the exchange of a free lock the first to step gets it, and the next one stays where it is |
| Spinlock.HeldLockWaits | TP2-sched/kern/spinlock.c:73-74 | while a CPU is inside, a step at the exchange changes nothing |
| Spinlock.PairedNeverPanics | TP2-sched/kern/spinlock.c:38-124 | if calls are paired from boot on no interleaving reaches the panic of spin_lock or of spin_unlock |
| Spinlock.UnpairedPanics | TP2-sched/kern/spinlock.c:38-124 | wherever a run has led, a second lock or an unlock from outside panics within the CPU's next two steps whatever the others do, so the two separate reads of holding() always give the right answer |
| Sched.Scheduler.constructor | TP2-sched/kern/env.c:113-127 | the table of environments starts all free |
| Sched.Scheduler.EnvRun | TP2-sched/kern/env.c:494-514 | a running curenv steps down, the chosen environment runs and is counted, and no other changes |
| Sched.Scheduler.Scan | TP2-sched/kern/sched.c:38-60 | finds the lowest priority among the eligible, the first of them going round from after curenv, or none if there is none |
| Sched.Scheduler.ResetAll | TP2-sched/kern/sched.c:70-75 | brings every runnable environment to priority 1 and changes no other |
| Sched.Scheduler.SchedPrioridades | TP2-sched/kern/sched.c:35-87 | runs the chosen environment after ageing or reset, else the running curenv of this CPU, else halts, in exactly these cases |
| Sched.Scheduler.SchedRoundRobin | TP2-sched/kern/sched.c:117-133 | runs the first runnable environment going round from curenv, else the running curenv, else halts |
| Sched.ChosenUnique | TP2-sched/kern/sched.c:41-60 | the choice is determined by the table and the starting point |
| Sched.ChosenMeans | TP2-sched/kern/sched.c:41-60 | an environment is chosen exactly if it is runnable with priority at most 10, nobody runnable has a lower priority, and nobody met earlier on the way round has the same |
| Sched.PickEffects | TP2-sched/kern/sched.c:69-83 | what a pick and env_run together do to every slot of the table: who runs, who steps down, which priorities rise by one or go back to 1, and whose run count rises by two |
| Sched.SomeoneChosen | TP2-sched/kern/sched.c:41-60 | someone is chosen whenever an eligible environment waits |
| Sched.PickDrops | TP2-sched/kern/sched.c:52-83 | every pick of another environment uses up part of a potential, and a second reset cannot come first |
| Sched.NoStarvation | TP2-sched/kern/sched.c:35-87 | an environment that stays runnable with priority at most 10 is passed over at most 12(n-1)+1 times among n live environments, with at most one reset, even if others raise their priority |
| SchedRuns.OneCpuBound | TP2-sched/kern/sched.c:35-87 | on one CPU, where the scan starts after the environment picked last, or at slot 0 once that has exited, a waiting environment is passed over at most 0, 11 or 24 times among one, two or three live environments, and 12(n-1)+1 times among more |
| SchedRuns.LimitIsAttained | TP2-sched/kern/sched.c:35-87 | for every number of environments and table size these numbers are attained in a run from boot, by picks and acts of the running environment (yield, exit, making children, raising its priority, sys_ipc_recv, sending, making itself runnable) that the code allows |
| SchedRuns.StartIsReached | TP2-sched/kern/sched.c:35-87 | the table in which the waiting begins, run counts included, is reached from the environments created at boot |
| SchedRuns.ScheduledIsBetween | TP2-sched/kern/sched.c:62-87 | what sched_prioridades and env_run do to the table is among what may happen between two picks in NoStarvation |
| SchedRuns.PassedOverIsOneCpu | TP2-sched/kern/sched.c:35-87 | so every run of the scheduler on one CPU, with any such acts, is among the runs bounded |
| SchedRuns.AboveLimitWaits | TP2-sched/kern/sched.c:41-60 | an environment above priority 10 has no turn as long as no pick resets the priorities |
| SchedRuns.AboveLimit | TP2-sched/kern/sched.c:69-75 | and the pick that resets brings it to the minimum |
| SchedRuns.StarvesAbove | TP2-sched/kern/sched.c:62-67 | with curenv running and nobody at 10 or below it is passed over any number of times |
| Sched.RobinCloser | TP2-sched/kern/sched.c:117-125 | each pick brings curenv strictly closer to a waiting environment |
| Sched.FirstFromMeans | TP2-sched/kern/sched.c:117-125 | round robin picks a runnable environment before which nobody runnable is met |
| Sched.RobinWaitBounded | TP2-sched/kern/sched.c:117-125 | a waiting environment is picked within its circular distance from curenv, at most n-1 yields |
| Sched.RobinRepicksRunnable | TP2-sched/kern/sched.c:98-125 | the scan picks curenv again exactly when curenv is runnable |
| EnvIds.NextIdIs | TP2-sched/kern/env.c:218-223 | in wrapping 32-bit arithmetic one allocation moves a slot from its k-th id to the next, through the wrap |
| WordForms.MaskGeneration | TP2-sched/kern/env.c:219 | masking the index off a word subtracts the remainder modulo 1024 from the number it stands for |
| WordForms.OrIndex | TP2-sched/kern/env.c:222 | putting an index in by a bitwise or adds it to the number |
| WordForms.NextIdWords | TP2-sched/kern/env.c:218-223 | adding, masking, comparing and or-ing 32-bit words computes the id the model computes on integers, for every old id |
| EnvIds.IdParts | TP2-sched/inc/env.h:12-32 | an issued id is positive and its low bits are its slot |
| EnvIds.SameIdIff | TP2-sched/kern/env.c:218-223 | a slot has the same id twice exactly when a multiple of 2^19 - 1 allocations lie between |
| EnvIds.LiveIds | TP2-sched/inc/env.h:12-32 | the ids of live environments are positive, distinct and name their slots |
| EnvIds.LookupIff | TP2-sched/kern/env.c:71-105 | a non-zero id is found exactly when some live environment carries it, and then that one |
| EnvIds.StaleIff | TP2-sched/kern/env.c:82-92 | an id issued fewer than 2^19 - 1 allocations of its slot ago is good exactly if the slot is in use and has not been allocated since |
| EnvIds.StaleBoundIsTight | TP2-sched/kern/env.c:82-92 | 2^19 - 1 allocations later the stale id is accepted again |
| EnvIds.EnvTable.constructor | TP2-sched/kern/env.c:113-127 | all slots free with id 0, and the list has them in order |
| EnvIds.EnvTable.Envid2env | TP2-sched/kern/env.c:71-105 | id 0 is curenv; another id is accepted if and only if some slot in use carries it and, when permission is checked, is curenv's or has curenv's id as its parent, and then it is that slot |
| EnvIds.EnvTable.EnvAlloc | TP2-sched/kern/env.c:204-266 | fails exactly when no slot is free or no directory can be had, changing nothing; otherwise the list loses its head, which is runnable with the next of its ids, and every other slot is as it was |
| EnvIds.EnvTable.EnvFree | TP2-sched/kern/env.c:449-453 | the slot goes to the front of the list, keeps its id, and every other slot is as it was |
| EnvMemory.Envs.constructor | TP2-sched/kern/env.c:113-127 | at the start no slot is in use and there is no directory |
| EnvMemory.Envs.Create | TP2-sched/kern/env.c:204-266 | env_alloc with its memory: it fails exactly if all slots are in use or no page is free, changing nothing; otherwise one slot more is in use, with the parent given and a directory of its own made from a free page, and no other slot changes |
| EnvMemory.Envs.Destroy | TP2-sched/kern/env.c:406-453 | env_free with its memory: the slot is free again, keeps its id, and the state is the one without its directory and all below |
| EnvMemory.AsManyDirectories | TP2-sched/kern/env.c:204-266 | the slots in use and the page directories correspond one to one, so there are never more than 1024 directories |
| PageCalls.NamedIs | TP2-sched/kern/env.c:71-105 | the lookup behind the page calls finds curenv for id 0, otherwise the slot in use that carries the id and is curenv's or its child's, or none |
| PageCalls.ChildBelongs | TP2-sched/kern/env.c:94-101 | among all live environments exactly the child itself and its creator can name a child by its id |
| PageCalls.SysExofork | TP2-sched/kern/syscall.c:138-160 | fails exactly if all slots are in use or no page is free, changing nothing; otherwise a new slot with a directory of its own holds a child that is not runnable, and of all live environments only the child and its creator can name it |
| PageCalls.SysPageAlloc | TP2-sched/kern/syscall.c:228-247 | the whole system call: a bad address, then an id that names no environment the caller may touch, then bad permissions, then too few pages give their errors in this order; otherwise a zeroed page is mapped in the directory of the environment named |
| PageCalls.SysPageMap | TP2-sched/kern/syscall.c:265-292 | the whole system call: bad addresses, ids that may not be touched, a source that is unmapped or read-only, and a missing page for the page table give their errors in this order, changing nothing; otherwise the source's page is mapped in the directory of the destination |
| PageCalls.SysPageUnmap | TP2-sched/kern/syscall.c:301-317 | the whole system call: a bad address, then an id that may not be touched; otherwise exactly the entry of the environment named goes |
| UserMem.UserMemCheck | TP2-sched/kern/pmap.c:643-664 | passes exactly if the rounded end of the range is not above UTOP and every page from its beginning to there is mapped with the permissions, and otherwise reports the first address that is wrong |
| UserMem.CoversBits | TP2-sched/kern/pmap.c:643-664 | on 32-bit words the permission test of the check is that every bit asked for is set |
| UserMem.RightIff | TP2-sched/kern/pmap.c:625-664 | its answer is right for every address of the range, whatever the page tables hold, if and only if the range ends a page below 2^32 or its end, rounded in 32 bits, still lies above UTOP |
| Upcall.ReadBack | TP2-sched/kern/trap.c:346-378 | a 32-bit word written to bytes reads back |
| Upcall.LittleEndian | TP2-sched/kern/trap.c:346-378 | it lies in memory with its low byte first |
| Upcall.PushLeavesFrame | TP2-sched/kern/trap.c:346-378 | after the push the frame holds the fault address, the error code and the trap-time state, each at its offset, and only the frame and a nested fault's spare word have changed |
| Upcall.PushClearsSlot | TP2-sched/kern/trap.c:366-369 | on the exception stack the word under the trap-time stack is cleared |
| Upcall.Cpu.PageFaultHandler | TP2-sched/kern/trap.c:303-387 | destroys, panics or resumes in exactly the right cases; on resuming each of the thirteen words of the frame reads back what the trap saved, the fault address first and the error code second, the stack pointer is at the frame, and no other memory has changed |
| UserMem.HandleFault | TP2-sched/kern/trap.c:303-387 | with the check of the exception stack against the page tables: the upcall is entered exactly if one is registered, the exception stack is mapped writable for the user and the frame fits; then the words of the frame are as above |
| Upcall.Cpu.Popal | TP2-sched/lib/pfentry.S:76-78 | seven registers come from the frame in order and the saved stack pointer is skipped |
| Upcall.Cpu.PlantReturn | TP2-sched/lib/pfentry.S:67-72 | the return address goes under the trap-time stack and the stack pointer in the frame follows it, and no other word changes |
| Upcall.Cpu.UnwindUpcall | TP2-sched/lib/pfentry.S:67-91 | the instructions restore every register, the flags, the stack pointer and the instruction pointer of the trap |
| Upcall.BodyPreserves | TP2-sched/lib/pfentry.S:34-91 | a handler with any nested faults leaves everything from its own frame up as it was |
| Upcall.NestedRoundTrip | TP2-sched/lib/pfentry.S:34-91 | at any nesting depth each frame is intact when it is unwound, its fault address and error code too, its return address misses every live frame, and the stack above is as at the fault |
| Upcall.FirstFaultRoundTrip | TP2-sched/kern/trap.c:346-378 | a first fault and all faults nested in it round trip, the fault address and the error code are still there afterwards, and outside the exception page only the word under the trap-time stack is written |
| Stab.StepTerminates | TP2-sched/kern/kdebug.c:68-94 | every iteration lowers the measure, also an exact match that leaves the window as it is |
| Stab.ScanDown | TP2-sched/kern/kdebug.c:71-73 | the inner loop stops at the nearest entry of the type at or below the middle, or below the left end |
| Stab.ScanBack | TP2-sched/kern/kdebug.c:99-104 | the closing loop stops at the nearest entry of the type above the left end, or there |
| Stab.StabBinsearch | TP2-sched/kern/kdebug.c:59-106 | the loops compute the search function whose outcomes the lemmas state |
| Stab.BinsearchOutcomes | TP2-sched/kern/kdebug.c:39-106 | if some entry of the type is at or below the address the result is the last such entry and the end of its region; if there is no entry of the type it is empty at the left end; otherwise it ends just before the first entry of the type |
| Stab.DocumentedIff | TP2-sched/kern/kdebug.c:39-43 | the documented promise holds exactly when there is no entry of the type or one at or below the address, and the address is not an entry at the largest word |
| Stab.MaxWordFails | TP2-sched/kern/kdebug.c:87-93 | an exact match at the largest word never gives the documented result |
| Stab.RunsOn | TP2-sched/kern/kdebug.c:87-93 | with neighbouring values the search runs on to the next entry |
| Stab.DoesNotRunOn | TP2-sched/kern/kdebug.c:84-93 | with the same values in another layout it does not |
| PrintParse.Console.PrintNum | TP2-sched/lib/printfmt.c:36-55 | emits the numeral after as many pad characters as bring it to the width |
| PrintParse.Console.Pad | TP2-sched/lib/printfmt.c:49-51 | the decrementing loop emits one pad less than the width it starts from |
| PrintParse.DigitCount | TP2-sched/lib/printfmt.c:36-55 | a positive number has n digits exactly when it lies from base^(n-1) up to base^n |
| PrintParse.NumeralVal | TP2-sched/lib/printfmt.c:36-55 | the digits emitted stand for the number |
| PrintParse.PrintedLength | TP2-sched/lib/printfmt.c:36-55 | the length is the larger of the width and the digit count |
| PrintParse.Strtol | TP2-sched/lib/string.c:246-291 | the loops compute the value of the longest run of digits after blanks, sign and prefix, wrapped to 32 bits, and where it ends |
| PrintParse.RoundTrip | TP2-sched/lib/string.c:246-291 | for base 2 to 16, any width and blank or zero padding, strtol consumes all that was printed and returns the number wrapped to 32 bits, so the number itself if and only if it is below 2^31 |
| PrintParse.MinusPadIff | TP2-sched/lib/printfmt.c:112-114 | with '-' as the pad the number comes back exactly if there is no padding, or one pad before zero |
| PrintParse.StrtolReads | TP2-sched/lib/string.c:246-291 | what strtol makes of any string: blanks, a sign, the prefix that settles the base (0x for 16, 0 for 8, else 10 when the base is 0), then the longest string of digits is the number, 0 without any, and it stops behind it |
| PrintParse.DigitMeans | TP2-sched/lib/string.c:271-282 | a digit is one of 0 to 9 or a letter of either case, worth its place in the alphabet after 9 |
| PrintParse.LetterCase | TP2-sched/lib/string.c:262-282 | a printed numeral with any of its letters in upper case reads back as its number in its base, behind 0x in base 0 or 16, behind 0 in base 0, and as decimal in base 0 if positive |
| Fs.SplitJoin | TP3-fisopfs/fs.c:63-91 | a well-formed path is its parent joined with its last name, which is not empty and has no slash |
| Fs.JoinSplit | TP3-fisopfs/fs.c:63-91 | joining a directory and a name and splitting again gives the two back |
| Fs.SplitAt | TP3-fisopfs/fs.c:63-91 | any path that fits splits at its last slash, and a name without one belongs to the root |
| Fs.OneEntryEach | TP3-fisopfs/fs.c:93-221 | every occupied inode but the root is named by exactly one entry, in the directory with its parent's path, and its path is that path joined with the entry's name |
| FsLinks.AddedTable | TP3-fisopfs/fs.c:168-189 | adding an entry keeps the layout of dots, children and empty slots |
| FsLinks.RemovedTable | TP3-fisopfs/fs.c:128-150 | removing an entry shifts the later ones down and keeps the layout, also where tam counts one entry too many |
| FsLinks.LinkKeepsInv | TP3-fisopfs/fs.c:93-206 | linking a new inode into its parent keeps the two views in agreement |
| FsLinks.UnlinkKeepsInv | TP3-fisopfs/fs.c:128-150 | so does freeing a childless inode and removing its entry |
| FsOps.EntryIsPath | TP3-fisopfs/fs.c:208-221 | looking a name up in a directory's table and looking the joined path up among all inodes find the same inode |
| FsRefine.FullIff | TP3-fisopfs/fs.c:50-61 | no inode is free exactly when the tree has as many paths as there are inodes |
| FsRefine.RoomIff | TP3-fisopfs/fs.c:168-189 | a table is full exactly when the directory has 15 children at the root, 14 right under it, 13 deeper; and has only dots exactly when it has none |
| FsRefine.NoEntriesIff | TP3-fisopfs/fs.c:152-166 | the emptiness test succeeds exactly for directories without children |
| FsRefine.MakeRefines | TP3-fisopfs/fisopfs.c:150-189 | create, and mkdir at lines 328-374, are the tree operation with the same errors in the same order, and keep the views in agreement, if and only if the parent's table does not overflow |
| FsRefine.OverflowBreaks | TP3-fisopfs/fisopfs.c:361-370 | on overflow the new inode stays occupied with no entry, and the error is -ENOSPC for create and -1 for mkdir |
| FsRefine.UnlinkRefines | TP3-fisopfs/fisopfs.c:224-255 | unlink is the tree operation, for any path |
| FsRefine.RmdirRefines | TP3-fisopfs/fisopfs.c:376-427 | rmdir is the tree operation, for any path, and never returns -EIO |
| FsFiles.ReadRefines | TP3-fisopfs/fisopfs.c:87-124 | read returns exactly the bytes pread does |
| FsFiles.WriteRefines | TP3-fisopfs/fisopfs.c:257-296 | in its effect and its reply write is pwrite, with gaps reading as zeros, if and only if it is not an empty write past the end; that one extends the file with zeros up to the offset, or fails beyond 4096 |
| FsFiles.TruncateRefines | TP3-fisopfs/fisopfs.c:298-326 | truncate is ftruncate for every size up to 4096: kept bytes stay, growth reads as zeros |
| FsFiles.FileChanged | TP3-fisopfs/fisopfs.c:281-295 | changing one file's bytes changes that path in the tree and no other |
| FsRuns.MkfsInv | TP3-fisopfs/fs.c:13-34 | a fresh disk is a tree with only the root |
| FsRuns.TreeIsClosed | TP3-fisopfs/fs.c:223-248 | below the root every path is a proper name joined to the path of an existing directory, and no directory has more children than it has room for |
| FsRuns.StepRefines | TP3-fisopfs/fisopfs.c:445-457 | every allowed call does to the disk what it does to the tree, with the same reply |
| FsRuns.RunRefines | TP3-fisopfs/fisopfs.c:445-457 | over any allowed sequence of calls the two views agree at the end and the tree and all replies are those of the tree operations |
| Fisopfs.FileSystem.constructor | TP3-fisopfs/fs.c:3-34 | initialising the superblock gives the fresh disk |
| Fisopfs.FileSystem.FindInode | TP3-fisopfs/fs.c:36-48 | the loop finds the first occupied inode with the path, or none |
| Fisopfs.FileSystem.FreeInode | TP3-fisopfs/fs.c:50-61 | the loop finds the first free inode, or none |
| Fisopfs.FileSystem.CreateInode | TP3-fisopfs/fs.c:93-126 | the first free inode is initialised and occupied, and no other changes |
| Fisopfs.FileSystem.FindEntry | TP3-fisopfs/fs.c:208-221 | the loop finds the first live slot with the name, or none |
| Fisopfs.FileSystem.AddEntry | TP3-fisopfs/fs.c:168-189 | the first empty slot of the parent is filled and tam grows, or nothing changes |
| Fisopfs.FileSystem.ShiftDown | TP3-fisopfs/fs.c:138-143 | in place, the slots after the removed one move down by one and the last is emptied |
| Fisopfs.FileSystem.RemoveEntry | TP3-fisopfs/fs.c:128-150 | exactly the entry with the name goes, or nothing changes |
| Fisopfs.FileSystem.DirIsEmpty | TP3-fisopfs/fs.c:152-166 | the loop decides whether all live slots are dots |
| Fisopfs.FileSystem.ParentOf | TP3-fisopfs/fs.c:223-248 | finds the parent directory or says which of the two errors it is |
| Fisopfs.FileSystem.CreateFile | TP3-fisopfs/fisopfs.c:150-189 | the program adds an empty file to the tree or reports the tree's error, unless the parent's table overflows |
| Fisopfs.FileSystem.Mkdir | TP3-fisopfs/fisopfs.c:328-374 | the same for an empty directory |
| Fisopfs.FileSystem.RemoveFile | TP3-fisopfs/fisopfs.c:224-255 | the program removes the file from the tree or reports the tree's error, and keeps the views in agreement |
| Fisopfs.FileSystem.RemoveDir | TP3-fisopfs/fisopfs.c:376-427 | the same for an empty directory |
| Fisopfs.FileSystem.ReadAt | TP3-fisopfs/fisopfs.c:87-124 | returns the tree's bytes or error |
| Fisopfs.FileSystem.WriteAt | TP3-fisopfs/fisopfs.c:257-296 | the program writes the bytes of the tree's file or reports its error, unless it is an empty write past the end |
| Fisopfs.FileSystem.SetSize | TP3-fisopfs/fisopfs.c:298-326 | the program cuts or extends the tree's file or reports its error |
| Primes.HeadsArePrimes | TP0-fork/primes.c:40-84 | once a stream is empty, the first numbers of the streams before it are all the primes up to n in ascending order |
| Primes.SievedStep | TP0-fork/primes.c:75-79 | a filter passes on exactly the numbers without a divisor up to and including its prime |
| SieveRuns.StepKeepsInv | TP0-fork/primes.c:9-84 | every step of every process keeps the invariant on pipes, processes and output |
| SieveResults.OneWriter | TP0-fork/primes.c:67-73 | after the setup closes a pipe's write end is held by its writer only, and by nobody once that has closed it |
| SieveResults.NoBrokenPipe | TP0-fork/primes.c:76-79 | nobody writes to a pipe without a reader |
| SieveEnds.EndsOverRuns | TP0-fork/primes.c:9-84 | in every interleaving, at every moment, exactly which processes have which pipe ends open, inherited ones included; when all have exited none is open |
| SieveResults.OutputSoFar | TP0-fork/primes.c:55 | at every moment what has been printed is primes in ascending order |
| SieveResults.NoDeadlock | TP0-fork/primes.c:9-84 | with pipes of any size, as long as a process has not exited some process can take a step |
| SieveResults.RunKeepsInv | TP0-fork/primes.c:9-84 | every interleaving keeps the invariant and is no longer than the measure of its first state |
| SieveResults.SievePrintsPrimes | TP0-fork/primes.c:9-84 | for every n, pipe size and schedule the run has at most quadratically many steps, and when it cannot go on all processes have exited and exactly the primes up to n have been printed, in order |

## Left out

- Fork.SysPageMap: the environments are given (PageCalls.SysPageMap looks them up), permission bits above the low twelve, which the source would or into the address, are excluded, and so is a page with 65535 references, whose sixteen-bit count would wrap.
- Fork.SysPageAlloc: the environment is given; PageCalls.SysPageAlloc looks it up.
- PageCalls.SysPageMap: the same bounds on permissions and references as Fork.SysPageMap.
- Cow.CowRefinesEager: nobody else remaps the faulting address or PFTEMP of an environment inside its handler, which stores to its exception stack only, or the two addresses of a duplication between its two calls.
- Fork.ForkChild: the memory half of fork; set_pgfault_handler, the child's registers and the status change are not modelled, explicit sharing is excluded, and the parent's stack is the page at USTACKTOP - PGSIZE, whose fault may come earlier when a page after it is mapped, with the same pages taken in all.
- Pmap.Kernel.PageInsert: assumes fewer than 65535 references to the page, since pp_ref has sixteen bits; Fork.SharedPageRefs shows that fork stays below that.
- Allocation.ServeAll: a page taken in hand stays there until it is inserted; the kernel outside its self-tests calls page_free through page_decref only.
- PageCalls.SysExofork: the child's registers and priority are not modelled.
- Pmap.Kernel.EnvFree: memory only; the slot's return to the list is EnvIds.EnvTable.EnvFree.
- Smp.StepPreserves: three transitions are excluded: sys_env_set_status on an environment on another CPU, a send to one (Smp.SendsAreHarmless says when there is none), and the destruction of one already dying; Smp.HarmlessIsExact shows that no exclusion can be relaxed.
- Stab.DocumentedIff: assumes that an address and its successor are not both values of the type; when they are, the table's layout decides, as Stab.RunsOn and Stab.DoesNotRunOn show.
- Sched.NoStarvation: run counts do not wrap, so it covers runs of fewer than 2^32 dispatches, and priorities start at 0 or above; environments created while one waits are not counted in.
- SchedRuns.OneCpuBound: the same assumptions.
- Upcall.NestedRoundTrip: assumes that frames fit in the page, since the kernel panics otherwise (Upcall.Cpu.PageFaultHandler states when), and that the handler does not write to the live part of the exception stack.
- FsRefine.MakeRefines: new paths are well formed and shorter than 256 bytes, as the FUSE layer passes them; longer ones are clipped by the source and the two views then differ.
- FsFiles.WriteRefines: offsets and sizes are not negative, as the FUSE layer guarantees; a write that does not fit fails as a whole, where POSIX allows a partial one.
- FsRuns.RunRefines: runs in which a directory overflows or an empty write lands past the end are excluded; the lemmas on those calls say what happens instead.
- Fisopfs.FileSystem.RemoveEntry: the slots and the bytes of an inode are two fields rather than two readings of one buffer; the sixteenth, partial slot is modelled as always empty.
- TLB agreement across CPUs: the source never invalidates another CPU's cache.
- Page transfer in IPC, and the IPC fields other than the status changes.
- Boot, device drivers, static kernel mappings, load_icode, trap frames outside the upcall, scheduler statistics and the monitor.
- FUSE callbacks, owners, permissions, timestamps, link counts and persistence of fisopfs.
- Failing system calls in the sieve (pipe, fork, read, write), stdio buffering, and n at the largest int.
- Hardware memory ordering; the steps of the spin lock are sequentially consistent.
- The shell, xargs, the challenges and the demonstration programs: no state machine to speak of.

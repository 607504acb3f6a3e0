# flan kernel: a verified model

flan is a small x86-64 kernel. This project models the parts of it with hard invariants and proves
properties of the model with Dafny 4.11. `dafny verify dfyconfig.toml` checks the whole project.

What is modelled, in the kernel's own terms:

- **Frame allocator** (`pmm.dfy`, `pmm_runs.dfy`). The bitmap is an array of bytes changed bit by bit; it refines a
  set of used frames. First-fit search, allocation, release, and the boot-time set-up from the memory map.
- **Page tables** (`radix.dfy`, `vmm.dfy`, `vmm_ops.dfy`, `vmm_runs.dfy`, `vmm_class.dfy`). Physical memory is a
  sequence of bytes; table entries are little-endian words in it. `radix.dfy` is the theory of a 4-level radix forest
  with ghost ownership of table frames, `vmm.dfy` and `vmm_ops.dfy` give the walk, map, unmap and lookup as functions,
  `vmm_runs.dfy` proves isolation over whole runs, `vmm_class.dfy` is the code in place, proved against the functions.
  `spare_frames.dfy` says how many free frames make each operation succeed, and uses that for concrete inputs.
- **User memory** (`regions.dfy`, `mmap.dfy`, `elf.dfy`, `stack.dfy`, `stack_build.dfy`, `user_thread.dfy`,
  `exec.dfy`, `process.dfy`). What a program reads through its own page tables: anonymous mappings, loaded segments, and
  the initial stack with its argument, environment and auxiliary vectors (System V AMD64 ABI, section 3.4.1).
- **SMP scheduler** (`smp.dfy`, `smp_flags.dfy`, `smp_race.dfy`, `smp_exit.dfy`, `smp_reuse.dfy`, `smp_calm.dfy`,
  `smp_enqueue.dfy`, `smp_bypass.dfy`, `ring.dfy`, `queue_lock.dfy`). Any number of CPUs taking the micro-steps of the
  timer handler and of thread exit, in every interleaving, with freed thread records used again; the run queue at
  pointer level; enqueues write by write, between scans and under the queue's spinlock.
- **Kernel heap** (`kheap.dfy`, `kheap_scaled.dfy`, `dll.dfy`, `kheap_list.dfy`). First-fit with splitting and
  coalescing, as functions on lists of blocks and in place on an intrusive circular list. A parameter `far` tells
  whether the list pass measures the distance between blocks as the source, compiled, does, or in bytes.
- **Files** (`hashmap.dfy`, `strings.dfy`, `vfs.dfy`, `vfs_create.dfy`, `vfs_class.dfy`, `tmpfs.dfy`). The chained
  hash table and the directories made of it, the in-place tokenizer, path lookup and creation, growable file buffers.
- **Boot archive** (`initramfs.dfy`, `initramfs_reclaim.dfy`, `boot_files.dfy`, `boot_tree.dfy`, `pointer_table.dfy`,
  `keyed_tree.dfy`, `boot_keys.dfy`, `boot_exact.dfy`, `boot_disturb.dfy`, `boot_install.dfy`, `boot_firm.dfy`,
  `boot_packed.dfy`, `boot_impostor.dfy`). The archive that is handed back to the frame allocator while it is being read,
  and the file tree made from it. `boot_files.dfy` and `boot_tree.dfy` take names for values. From `pointer_table.dfy`
  on names are what they are in the code, pointers into the archive's headers, and every search reads them from memory
  as it is at the time.
- `words.dfy`, `physmem.dfy`, `sequences.dfy` and `runs.dfy` hold what the others share: 64-bit words, bitwise or,
  memory, lists, and what every step of a run keeps.

## How to read it

Code that computes a value is a function; code that changes things is a class or a method with loops, and its
`ensures` ties the new state to such a function. The theorems are then about the functions. Whole-run theorems
quantify over every sequence of operations (`RunIsReplay`, `RunShares`, `ProcessesArePrivate`, `SchedulerExcludes`,
`HeapConserves`, `CompiledConserves`, `TableIsMap`, `RunKeepsWrites`, `ReclaimSafe`, `EnqueuesExactly`,
`FineRunsExclude`, `CarefulRunsExclude`, `NoThreadLost`, `BootExactly`). Two results join several parts:
`StartedProgram` (loader, page tables, stack builder and the ABI's reader) and `BootInstalls` (bytes of the archive, the
walk that frees them, tables keyed by pointers into them, path creation, file writes, path lookup and reads).

Where the code does not meet a property in general, the code is kept, the exact condition is proved, and an input that
fails is given:

- A mapped page translates back to `pa` if and only if `pa` is frame-aligned, below 2^52, and the flags add no address
  bit (`MapThenLookup`; `UnalignedIsLost`).
- A kernel mapping made after a space was created, and after anything that happened since, shows up in it if and only
  if the kernel's root entry was present at its creation (`KernelMappingVisible`; `LateMappingIsHidden`):
  `vmm_new_pagemap` copies the upper half once, and sharing neither starts nor ends later (`RunShares`).
- `pmm_init` sizes the bitmap by rounding down to bytes first; it covers all frames if and only if the frame count is a
  multiple of 8 or its byte count is not a multiple of 4096 (`CoversExactly`; `SmallMemoryUncovered`).
- A segment without file bytes, or with a multiple of 2^32 of them, trips the assertion on the read
  (`GoodSegmentLoads`; `ZeroSegmentHalts`).
- A failing anonymous `mmap` clears memory from physical address 0 before its result is looked at (`FailureClears`;
  `FailedRequestWipes`).
- `sched_user_thread` maps one page more than it allocates (`ExtraPage`).
- The scheduler keeps every thread on one CPU at most, never takes an idle thread and keeps locks in step with owners,
  on every run (`SchedulerExcludes`). That no thread runs again once it has exited is a separate matter: a step breaks
  it if and only if it takes such a thread (`NoneExitedExactly`), which can happen (`ExitRace`), because an exiting
  thread is unlinked and unlocked while another CPU's scan may stand at it. At the unlock of an exiting thread that no
  link leads to, some continuation takes it again if and only if another CPU's scan stands at it then
  (`ExitSafeExactly`). It cannot happen when link writes do not overlap scans and the exiting thread is at neither end
  of the queue (`SerialisedRunsExclude`), also with scans between the single writes of enqueues (`FineRunsExclude`).
- The record of a thread that exits goes back to the heap. Used again for a new thread it stays on one CPU at most,
  whatever happens from then on, if and only if no CPU has it at that moment (`ReuseExactly`); that a CPU may have it is
  what `ReuseRace` shows, on a run from power-on.
- `dequeue_thread` keeps the queue valid if and only if the thread is neither its start nor its end (`Dequeue`;
  `FirstLeaves`).
- The flag that a thread is queued is tested before the queue's lock is taken, so two callers with one thread can both
  get past it. Whatever threads are enqueued by however many callers, the queue is kept in every interleaving if and
  only if no thread that is not queued yet has two callers, or the queue is empty and there is one thread only
  (`EnqueuesExactly`). Otherwise a run is given that leaves no cycle at all (`SecondCallerBreaks`) or one without a
  thread that was enqueued (`DroppedBreaks`).
- The source compares `prevBlock + size + HEADER_SIZE` on a pointer to a 32-byte record, which scales the distance.
  The list pass so compiled keeps the heap's tiling if and only if no two list neighbours stand at that scaled distance
  (`PassTilesExactly`), and a run keeps it if and only if no pass along it finds such neighbours (`CompiledConserves`);
  three calls after which it is lost are given (`ScaledRunBreaks`). With the distance in bytes, which `HEADER_SIZE` is
  in, it is kept by every run (`HeapConserves`).
- `vfs_create` puts the node where its path says unless a one-segment absolute path comes with a starting directory
  other than the root (`CreateFoundExactly`; `AbsolutePathMissed`).
- Installing the boot archive, left alone, meets no failed assertion if and only if the archive names no path twice and
  every directory before what is in it (`InstallsExactly`; `TwiceFails`, `OrphanFails`).
- A directory keeps the pointer it is given as a name, and `initramfs_init` gives it one into the archive's header, in a
  frame that it hands back when the member fills one. `ReclaimSafe` is about what the walk reads; what the tree finds is
  another matter: a run is given on which a file is no longer found (`NameOverwritten`). The boot comes to what it comes
  to left alone, and a path leads where it led, however others take frames and write to them, if and only if no memory
  within their reach decides a search of the boot or the one for the path (`BootInstalls`). For one path it is
  necessary, and not enough, that its own names and its directories' are out of reach (`PathNeedsFirm`;
  `ImpostorFound`). All paths of the archive are kept if and only if no frame that the walk frees and the allocator
  hands out holds a byte of the last component of a member's path (`FirmExactly`), as is so when every member, header
  included, is shorter than a frame (`SmallLasts`).
- After a `tmpfs` write the file size covers the write if and only if the write lay inside the old size or grew the
  buffer (`SizeCoversExactly`; `SizeLagsBehind`), and a read returns all it asks for if and only if that lies inside the
  size, or starts past it and lies inside the buffer (`WholeReadExactly`).

## Model

| member | source | states |
|---|---|---|
| `FrameAllocator.FirstFit` | src/memory/pmm.c:79-105 | the answer is the lowest base of n consecutive free frames from 1 up, and none exists when there is no answer; for n = 0 the quirk of the scan is spelled out |
| `FrameAllocator.SetLaw` | src/lib/stddef.h:19-20 | setting a bit changes that bit of the byte and no other |
| `FrameAllocator.ClearLaw` | src/lib/stddef.h:21-22 | clearing a bit changes that bit of the byte and no other |
| `FrameAllocator.ScanHit` | src/memory/pmm.c:84-98 | when the run counter reaches n the scan stands at the end of the first fit |
| `FrameAllocator.ScanMiss` | src/memory/pmm.c:84-104 | a scan that reaches the limit proves that no fit exists |
| `FrameAllocator.Pmm.FindRun` | src/memory/pmm.c:79-105 | the scan over the bitmap returns the first fit of the set of used frames |
| `FrameAllocator.Pmm.Malloc` | src/memory/pmm.c:79-105 | returns the first fit and marks exactly its frames; marks nothing when there is none; bits from the limit up stay |
| `FrameAllocator.Pmm.Free` | src/memory/pmm.c:70-77 | unmarks exactly the given frames |
| `FrameAllocatorRuns.RunsPartition` | src/memory/pmm.c:70-105 | over every run of allocations and releases, live allocations are pairwise disjoint, avoid frame 0 and reserved frames, and account for everything marked |
| `FrameAllocatorRuns.ReleaseUndoesAllocate` | src/memory/pmm.c:70-105 | releasing what was just allocated restores the pool, for every request size |
| `FrameAllocatorRuns.FindHighest` | src/memory/pmm.c:27-40 | the loop over the memory map finds the highest end of a usable entry |
| `FrameAllocatorRuns.FindCarve` | src/memory/pmm.c:44-56 | the bitmap is carved from the first usable entry that can hold it |
| `FrameAllocatorRuns.CoversExactly` | src/memory/pmm.c:41-43 | the bitmap has a bit for every frame exactly when the frame count is a multiple of 8 or its byte count is no multiple of 4096 |
| `FrameAllocatorRuns.SmallMemoryUncovered` | src/memory/pmm.c:41-43 | a frame count for which bits are missing |
| `FrameAllocatorRuns.FreeUsable` | src/memory/pmm.c:57-65 | clears exactly the bits of frames in usable entries |
| `FrameAllocatorRuns.Init` | src/memory/pmm.c:18-68 | afterwards a frame below the limit is free exactly when it lies in a usable entry and outside the bitmap's own storage |
| `RadixTree.PlaceUnique` | src/memory/vmm.c:23-33 | a table frame sits at one place of the forest only: one owner, one path |
| `RadixTree.UpperMeet` | src/memory/vmm.c:23-33 | two walks that meet in a table below the root level took the same indices |
| `RadixTree.MeetOnlyShared` | src/memory/vmm.c:90-104 | walks from two roots end in one table only if the roots share the root-level entry |
| `RadixTree.GrowForest` | src/memory/vmm.c:23-33 | linking a fresh cleared table keeps the forest well formed |
| `RadixTree.GrowKeepsLeaf` | src/memory/vmm.c:23-33 | linking a fresh cleared table changes no translation |
| `PageTables.NextOk` | src/memory/vmm.c:23-33 | get_next_level keeps memory well formed and returns a table at the place one index further |
| `PageTables.DescendKeepsLeaf` | src/memory/vmm.c:156-170 | a walk that allocates intermediate tables changes no translation of any root |
| `PageTables.DescendReaches` | src/memory/vmm.c:156-170 | after a walk the hardware's own walk reaches the same table |
| `PageTables.SetEntryFlat` | src/memory/vmm.c:35-75 | the 4-level table is a flat map: a store sets the entry of exactly one page, in exactly the roots that share its root-level entry |
| `PageTables.SharesKept` | src/memory/vmm.c:23-33 | building tables below one root neither starts nor ends sharing with another |
| `AddressSpaces.TranslatesBack` | src/memory/vmm.c:57-75 | the entry word gives back pa exactly when pa is frame-aligned, below 2^52 and the flags add no address bit |
| `AddressSpaces.LookupFlat` | src/memory/vmm.c:156-175 | virt_to_phys returns the address bits of the page's entry and changes no translation of any root |
| `AddressSpaces.MapThenLookup` | src/memory/vmm.c:57-75 | map then look up returns pa, exactly under that condition |
| `AddressSpaces.LowerHalfIsolated` | src/memory/vmm.c:35-75 | a lower-half operation changes no other root, nothing in the upper half, and in its own root only the page it names |
| `AddressSpaces.MapPagesSets` | src/memory/vmm.c:77-83 | every page of a range gets its own frame, wrapping at 2^64 included, for ranges of up to 2^36 pages |
| `AddressSpaces.MapPagesKeeps` | src/memory/vmm.c:77-83 | no page outside the range changes, and no page of another root for a lower-half range |
| `AddressSpaceRuns.NewSpaceEntries` | src/memory/vmm.c:90-104 | a new space translates nothing below, shares the kernel's translations above, and changes no other space |
| `AddressSpaceRuns.RunIsReplay` | src/memory/vmm.c:23-104 | after any sequence of create, map, unmap and lookup, the lower half of every space holds exactly what the calls on that space alone put there |
| `AddressSpaceRuns.RunShares` | src/memory/vmm.c:23-104 | over any run two page maps share exactly the root-level entries they shared at its start: sharing neither starts nor ends |
| `AddressSpaceRuns.NewSpaceShares` | src/memory/vmm.c:90-104 | a new page map shares exactly the upper-half entries the kernel's root has at that time |
| `AddressSpaceRuns.KernelHalfShared` | src/memory/vmm.c:90-104 | over any run a space sees every kernel mapping, earlier or later, under root-level entries present at its creation |
| `AddressSpaceRuns.KernelMappingVisible` | src/memory/vmm.c:90-104 | after any run since a page map was created, a kernel mapping then made shows up in it exactly when its root-level entry was present at creation |
| `SpareFrames.SetEntrySpare` | src/memory/vmm.c:23-75 | with three frames to spare any page can be mapped, and at most three are used up |
| `SpareFrames.PopulateSpare` | src/memory/vmm.c:77-83 | with four frames to spare a page of fresh memory can be mapped anywhere |
| `SpareFrames.NewSpaceSpare` | src/memory/vmm.c:90-104 | with two frames to spare a page map can be made, and exactly two are used up |
| `SpareFrames.UnalignedIsLost` | src/memory/vmm.c:57-75 | an address that does not translate back, for every page |
| `SpareFrames.LateMappingIsHidden` | src/memory/vmm.c:90-104 | kernel mappings, made after a page map, that it does not see |
| `SpareFrames.ZeroSegmentHalts` | src/lib/elf.c:61-62 | a segment within the format that does not load, whatever the file |
| `SpareFrames.FailedRequestWipes` | src/memory/pmm.c:107-111 | a failing request that changes memory |
| `VirtualMemoryManager.Vmm.constructor` | src/memory/vmm.c:106-112 | a zeroed root frame is a well-formed forest that translates nothing |
| `VirtualMemoryManager.Vmm.Calloc` | src/memory/pmm.c:107-111 | the allocation, and the clearing that happens before the result is checked |
| `VirtualMemoryManager.Vmm.GetNextLevel` | src/memory/vmm.c:23-33 | in place, exactly the specified step, keeping the forest invariant |
| `VirtualMemoryManager.Vmm.Walk` | src/memory/vmm.c:156-170 | three levels with the indices of bits 39-47, 30-38 and 21-29 |
| `VirtualMemoryManager.Vmm.MapPage` | src/memory/vmm.c:57-75 | in place, exactly the specified mapping |
| `VirtualMemoryManager.Vmm.UnmapPage` | src/memory/vmm.c:35-56 | in place, exactly the specified unmapping |
| `VirtualMemoryManager.Vmm.VirtToPhys` | src/memory/vmm.c:172-175 | in place, exactly the specified lookup |
| `VirtualMemoryManager.Vmm.MapPages` | src/memory/vmm.c:77-83 | the loop carries out exactly the specified list of stores, and stops where it halts |
| `VirtualMemoryManager.Vmm.NewPagemap` | src/memory/vmm.c:90-104 | in place, exactly the specified new space, the 256-entry copy loop included |
| `Regions.RegionByte` | src/memory/vmm.c:77-83 | through the page tables a program reads, from va on, the bytes of the frames mapped there |
| `Regions.PopulateHolds` | src/memory/pmm.c:107-111 | the frames mapped were free before, are zero, and are not used by the tables built on the way |
| `Regions.PopulateBacks` | src/memory/vmm.c:77-83 | every page of the range is backed by its own frame |
| `Regions.PopulateKeepsRegion` | src/memory/vmm.c:77-83 | memory mapped before on other pages stays backed by the same frames with the same bytes |
| `AnonymousMemory.FailureClears` | src/sys/syscalls/syscalls.c:112-114 | a call that finds no frames uses up its address range, and leaves memory as it was exactly when what it clears was zero already |
| `AnonymousMemory.FlagsPlain` | src/sys/syscalls/syscalls.c:116-117 | the entry flags carry no address bit exactly when prot carries none |
| `AnonymousMemory.StepIsPrivate` | src/sys/syscalls/syscalls.c:98-120 | one call or store changes only the caller's own view, and a new range reads as zero |
| `AnonymousMemory.ProcessesArePrivate` | src/sys/syscalls/syscalls.c:98-120 | over every interleaving of the processes' calls and stores, ranges stay page-aligned, disjoint and below anon_base, no frame backs two ranges, and each process reads exactly what it alone stored |
| `ElfLoader.GoodSegmentLoads` | src/lib/elf.c:46-64 | with frames available a good segment loads exactly when its file size is no multiple of 2^32, and never overruns |
| `ElfLoader.LoadedSegment` | src/lib/elf.c:46-64 | with its frames mapped a good segment loads exactly when its file size is no multiple of 2^32, never overruns, and when loaded its frames hold the file bytes and then zeros, at the unaligned offset |
| `ElfLoader.SegmentSurvives` | src/lib/elf.c:33-78 | a segment on pages that later segments do not touch is read back exactly at the end |
| `ElfLoader.LoadedImage` | src/lib/elf.c:23-84 | after loading, at every address of every loadable segment the program reads the byte the file prescribes, zero beyond the file size |
| `ElfLoader.LoadLeavesOthers` | src/lib/elf.c:23-84 | loading changes nothing in memory that is already mapped elsewhere |
| `ElfLoader.LoadedAux` | src/lib/elf.c:74-82 | a successful load reports the file's entry point, header size and header count, and the address of its last PT_PHDR header |
| `InitialStack.StackAligned` | src/proc/sched.c:135-138 | the initial stack pointer is 16-byte aligned, whatever the vectors' lengths |
| `InitialStack.BuiltKeepsStrings` | src/proc/sched.c:121-133 | writing the vectors leaves every string in place |
| `InitialStack.StartupRoundTrip` | src/proc/sched.c:117-172 | a reader that follows the ABI from the initial stack pointer finds exactly the argument strings, the environment strings and the four auxiliary pairs |
| `StackBuilder.PushTexts` | src/proc/sched.c:121-133 | the copy loop places the strings downwards, one terminator each |
| `StackBuilder.StorePointers` | src/proc/sched.c:155-167 | the pointers recomputed from the user's stack pointer are those of the copied strings |
| `StackBuilder.Build` | src/proc/sched.c:117-172 | the builder in place leaves exactly the specified stack and stack pointer |
| `UserThread.ExtraPage` | src/proc/sched.c:101-104 | the page above the stack is mapped to the frame after the stack's, which is in use after the allocation exactly if somebody else had it before |
| `UserThread.FillAgrees` | src/proc/sched.c:99-118 | what is written through the kernel's alias is what the program reads at its stack addresses |
| `UserThread.ProgramStarts` | src/proc/sched.c:92-176 | through its own page tables the new program finds exactly its arguments, environment and auxiliary vector |
| `UserThread.KernelPlacement` | src/proc/sched.c:66-66 | the stack of a process's first thread is placed as that theorem asks |
| `ProgramStart.FillStackKeeps` | src/proc/sched.c:99-118 | setting up the stack keeps memory mapped before on other pages, the page above the stack included |
| `ProgramStart.StartedProgram` | src/proc/sched.c:92-176 | after elf_load and the stack set-up, in one memory and through its own page tables, the program reads its whole image, and from the initial stack pointer its arguments, its environment and an auxiliary vector that describes the file it was loaded from |
| `ProgramStart.AuxFits` | src/lib/elf.c:74-82 | what elf_load reports fits the words of the auxiliary vector |
| `ProcessMemory.Process.Mmap` | src/sys/syscalls/syscalls.c:86-121 | the system call in place does exactly what the specification says, anon_base included |
| `ProcessMemory.Process.LoadSegment` | src/lib/elf.c:46-64 | the loadable case in place, with its four ways to end |
| `ProcessMemory.Process.ElfLoad` | src/lib/elf.c:23-84 | the loop over the program headers in place does exactly what the specification says, the auxiliary values included |
| `SmpScheduler.StepKeeps` | src/proc/sched.c:199-270 | every micro-step of any CPU and every edit of the ring keeps the invariant |
| `SmpScheduler.SchedulerExcludes` | src/proc/sched.c:199-270 | from power-on, in every interleaving of any number of CPUs and any ring edits: no thread is on two CPUs, idle threads are never taken, and a thread's lock is held exactly while one CPU has it, or for ever after an exit that skipped the unlock |
| `SmpScheduler.NoneExitedExactly` | src/proc/sched.c:199-270 | a step puts an exited thread on a CPU exactly when it is a scan taking one |
| `SmpScheduler.TakeKeeps` | src/lib/lock.c:5-5 | the compare-and-swap that takes a thread makes its CPU the one owner |
| `SmpScheduler.UnlockKeeps` | src/lib/lock.c:24-24 | the release between the two threads gives up exactly the old one |
| `SmpScheduler.BootKeeps` | src/sys/smp.c:69-76 | a CPU comes up on an idle thread of its own, blocked and never locked |
| `ThreadAccounting.NoThreadLost` | src/proc/sched.c:21-246 | on every run a thread that has not exited is either owned by a CPU or eligible for the next scan, and its running flag is set exactly while a CPU executes it |
| `RecordReuse.RenewKeeps` | src/proc/sched.c:265-265 | a record that no CPU has can be used for a new thread |
| `RecordReuse.ReuseExactly` | src/proc/sched.c:260-270 | after a freed record is used again each record is on one CPU at most, whatever the CPUs and the ring's editors do, exactly when no CPU had it |
| `RecordReuse.CarefulRunsExclude` | src/proc/sched.c:199-270 | mutual exclusion from power-on with records used again, on every run in which no CPU has a record that is used again |
| `RecordReuse.ReuseRace` | src/proc/sched.c:248-270 | a run from power-on after which one record is on two CPUs |
| `SchedulerRace.ExitRace` | src/proc/sched.c:248-270 | a run of two CPUs from power-on after which a CPU has a thread that has exited |
| `ExitSafety.ExitSafeExactly` | src/proc/sched.c:199-270 | at the unlock of an exiting thread that no link leads to, some run that does not link it in again takes it again exactly when another CPU's scan stands at it |
| `RunQueue.SchedQueue.Enqueue` | src/proc/sched.c:71-90 | appends to the ring; next and prev stay inverse and one cycle over exactly the enqueued threads |
| `RunQueue.SchedQueue.Dequeue` | src/proc/sched.c:248-258 | the links stay a cycle over the rest; the queue stays valid if and only if the thread was neither start nor end |
| `RunQueue.FirstLeaves` | src/proc/sched.c:248-258 | a queue of two whose first thread leaves, and which is not valid afterwards |
| `RunQueue.SchedQueue.GetNext` | src/proc/sched.c:199-210 | the scan ends after at most one round, takes the first eligible thread in ring order, and gives up only when there is none |
| `SerialisedExits.CalmStep` | src/proc/sched.c:71-270 | every step of a run with serialised removals keeps the ring, its mirror and every cursor inside it |
| `SerialisedExits.CalmTakesLive` | src/proc/sched.c:199-210 | in such a run nothing a scan is about to take has exited |
| `SerialisedExits.SerialisedRunsExclude` | src/proc/sched.c:71-270 | from power-on, on every run whose removals overlap no scan or enqueue and leave the queue's ends alone: mutual exclusion, no exited thread on any CPU or about to be taken, and a ring, linked both ways, of exactly the threads that have neither exited nor just been unlinked |
| `FineEnqueues.MicroMasked` | src/proc/sched.c:199-270 | a step of a CPU that sees an enqueue half done is its step in the finished ring, or ends its scan early |
| `FineEnqueues.PublishShows` | src/proc/sched.c:76-82 | after the write that makes the thread reachable, memory is the finished ring but for what is still to be written |
| `FineEnqueues.FineRunsExclude` | src/proc/sched.c:71-270 | the same on every such run with scans, switches and the ends of exits between the single writes of an enqueue |
| `SerialisedExits.RingExact` | src/proc/sched.c:71-270 | in such a run a thread is in the ring exactly when it has neither exited nor just been unlinked |
| `BoundedBypass.Bypass` | src/proc/sched.c:199-245 | in every interleaving with a fixed ring, a CPU's dispatches plus its remaining forward distance to a thread that stays eligible never exceed the distance at the start |
| `BoundedBypass.BypassBounded` | src/proc/sched.c:199-245 | so an eligible member of an n-ring is taken by somebody before any one CPU has made n - 1 switches |
| `BoundedBypass.ScanFinds` | src/proc/sched.c:199-210 | a scan does not come back empty-handed while some member stays eligible |
| `QueueLock.WritesAppend` | src/proc/sched.c:76-85 | the link writes of one enqueue together append the thread, on an empty queue too |
| `QueueLock.EnqueuesAreAtomic` | src/proc/sched.c:71-90 | threads enqueued on any queue, those not in it by one caller each, in every interleaving: one caller at most is past the lock, and whenever the lock is free the links are one cycle over the old queue followed by exactly the threads whose callers have been through, in lock order |
| `QueueLock.EnqueuesExactly` | src/proc/sched.c:71-90 | for any callers on any queue: whenever the lock is free the links are one cycle over the old queue and the threads whose callers have been through, in every interleaving, exactly when no thread that is not queued yet has two callers, or the queue is empty and there is one thread only |
| `QueueLock.SecondCallerBreaks` | src/proc/sched.c:72-80 | a run of two callers with one thread after which the links are no cycle |
| `QueueLock.DroppedBreaks` | src/proc/sched.c:72-80 | a run of three callers, two with one thread, after which a thread that was enqueued is in no cycle |
| `QueueLock.SecondAppend` | src/proc/sched.c:71-90 | the link writes for a thread that is queued already keep the queue if and only if it is alone in it |
| `KernelHeap.SplitTiles` | src/memory/kheap.c:66-73 | cutting a block in two keeps the tiling |
| `KernelHeap.MergeTilesExactly` | src/memory/kheap.c:30-36 | merging two blocks keeps the tiling if and only if the second starts where the first ends |
| `KernelHeap.CoalesceListTiles` | src/memory/kheap.c:25-40 | the pass over the list keeps the tiling when it merges only blocks adjacent in bytes |
| `KernelHeap.CoalesceComplete` | src/memory/kheap.c:25-40 | after the pass no two list neighbours are at the distance it merges at |
| `KernelHeap.SlotIs` | src/memory/kheap.c:105-116 | a freed block goes in front of the first list entry of higher address, or to the front when there is none |
| `KernelHeap.GrowFits` | src/memory/kheap.c:57-59 | the heap grows by as many frames as the block needs, and no more |
| `KernelHeap.GrowThenFits` | src/memory/kheap.c:56-63 | after the heap has grown first-fit succeeds, so kheap_alloc recurses once at most |
| `KernelHeap.AllocOk` | src/memory/kheap.c:42-80 | allocation keeps the tiling and hands out a block that was not live, of at least the size asked for |
| `KernelHeap.FreeOk` | src/memory/kheap.c:105-120 | release on the list path keeps the tiling |
| `KernelHeap.ReallocFits` | src/memory/kheap.c:133-140 | for any size not below the block's own: the copy of the old payload fits the new block, which overlaps nothing of the old one, and the old block stays live |
| `KernelHeap.HeapConserves` | src/memory/kheap.c:12-120 | with distances in bytes, after any run, interleaved with other users of the frame allocator, every byte of the heap's frames is in exactly one block, live payloads are disjoint from everything else and at least as large as asked for, by less than a header |
| `ScaledHeap.PassTilesExactly` | src/memory/kheap.c:25-40 | the list pass as compiled keeps the tiling if and only if no two list neighbours stand at the scaled distance |
| `ScaledHeap.StepExactly` | src/memory/kheap.c:42-120 | an allocation, a release or another user's step leaves the compiled heap well formed if and only if its pass finds no such neighbours |
| `ScaledHeap.CompiledConserves` | src/memory/kheap.c:12-120 | from an empty heap, a run of the compiled code keeps the heap well formed throughout if and only if no pass along it finds such neighbours |
| `ScaledHeap.ScaledRunBreaks` | src/memory/kheap.c:30-31 | two allocations and a release after which the compiled heap is no longer well formed |
| `LinkedRing.InsertRing` | src/memory/kheap.c:12-17 | the four link writes insert into the ring |
| `LinkedRing.RemoveRing` | src/memory/kheap.c:75-76 | the two link writes remove from the ring |
| `KernelHeapList.KHeap.AddBlock` | src/memory/kheap.c:19-23 | a new block joins the end of the list |
| `KernelHeapList.KHeap.CoalesceDll` | src/memory/kheap.c:25-40 | the pass in place, with either distance, leaves a ring over exactly the specified list, and touches no size word outside it |
| `KernelHeapList.KHeap.Find` | src/memory/kheap.c:47-55 | the walk over the links finds the first fit |
| `KernelHeapList.KHeap.TakeEntry` | src/memory/kheap.c:66-76 | split and unlink in place |
| `KernelHeapList.KHeap.KheapAlloc` | src/memory/kheap.c:42-80 | in place, with the frame allocator, exactly the specified allocation, recursing once at most |
| `KernelHeapList.KHeap.KheapFree` | src/memory/kheap.c:91-121 | in place, exactly the specified release on the list path; the heap stays valid if and only if the pass is harmless |
| `HashTable.StoredLookup` | src/lib/hashmap.c:44-78 | a stored value is found again and no other key's value changes |
| `HashTable.KeysHeld` | src/lib/hashmap.c:19-32 | a key is somewhere in the table exactly when a search from its own bucket finds it |
| `HashTable.StoredCount` | src/lib/hashmap.c:44-70 | the item count goes up exactly when a new non-empty key arrives |
| `HashTable.TableIsMap` | src/lib/hashmap.c:34-78 | after any sequence of sets every string, the empty one included, looks up to the last value set for it, and the keys present are the distinct non-empty keys set |
| `HashTable.AsMapSet` | src/lib/hashmap.c:44-70 | setting a key to a pointer is updating the map the table stands for |
| `HashTable.AsMapMirrors` | src/lib/hashmap.c:72-78 | looking a key up in the table is looking it up in that map |
| `HashTable.HashMap.HashOf` | src/lib/hashmap.c:7-14 | the shift-and-add loop is 33 h + c in 64 bits |
| `HashTable.HashMap.Set` | src/lib/hashmap.c:44-70 | in place, keeping the bucket invariant and the item count |
| `HashTable.HashMap.Get` | src/lib/hashmap.c:72-78 | the value held for the key, or NULL |
| `Strings.JoinSplit` | src/lib/str.c:74-94 | the pieces between slashes, joined again, are the text |
| `Strings.SplitJoin` | src/lib/str.c:74-94 | slash-free pieces, joined and cut again, are the same pieces |
| `Strings.Strlen` | src/lib/str.c:6-11 | the length of the text before the NUL |
| `Strings.Memcmp` | src/lib/str.c:37-47 | zero exactly on equal prefixes, otherwise the sign at the first difference |
| `Strings.Tokenizer.Next` | src/lib/str.c:74-94 | one call of strtok cuts the first piece off in place and leaves the cursor at the rest |
| `Strings.Tokenizer.All` | src/lib/str.c:74-94 | called until it answers NULL, strtok yields exactly the pieces, all still readable |
| `Strings.Basename` | src/lib/str.c:96-108 | overwrites exactly the trailing slashes and returns where the last component stands as a text of its own; "." for the empty path |
| `Strings.OnlyPart` | src/lib/str.c:96-108 | a path has one last component only |
| `Strings.BaseNameJoined` | src/lib/str.c:96-108 | for slash-joined pieces, with any slashes around them, that component is the last piece |
| `FileTree.Reduce` | src/fs/vfs.c:17-25 | following mount points and links ends, at a node that has neither |
| `FileTree.WalkIsFold` | src/fs/vfs.c:80-98 | where the token loop does not fault, its result is the fold of child lookups |
| `FileTree.PathIsFold` | src/fs/vfs.c:43-104 | a path of ordinary segments, with any leading slashes and an optional trailing one, resolves to the fold of child lookups from the root or the starting directory |
| `FileCreation.PathUnique` | src/fs/vfs.c:141-163 | two ordinary paths from one place to one node are the same path |
| `FileCreation.CreateOk` | src/fs/vfs.c:203-219 | creation keeps the tree well formed, the "." and ".." links included |
| `FileCreation.DotsLead` | src/fs/vfs.c:27-36 | in a new directory "." leads to the directory and ".." to where its parent leads |
| `FileCreation.CreateThenLookup` | src/fs/vfs.c:203-219 | after vfs_create the path finds the new node and every other ordinary path finds what it found before |
| `FileCreation.CreateFoundExactly` | src/fs/vfs.c:50-59 | the created path is found again if and only if it is not a one-segment absolute path with a starting directory other than the root |
| `FileCreation.AbsolutePathMissed` | src/fs/vfs.c:50-59 | a tree, a directory and a path for which it is not |
| `VirtualFileSystem.Vfs.ReduceNode` | src/fs/vfs.c:17-25 | the answer ends a trail of nodes from n, each the mount point of the one before or, where it has none, its link, and has neither itself |
| `VirtualFileSystem.Vfs.WalkTokens` | src/fs/vfs.c:78-98 | the loop over strtok's tokens on a private copy is the specified walk |
| `VirtualFileSystem.Vfs.LookUpPath` | src/fs/vfs.c:43-99 | in place, exactly the specified lookup |
| `VirtualFileSystem.Vfs.GetNode` | src/fs/vfs.c:100-104 | the result half of that lookup |
| `VirtualFileSystem.Vfs.GetChild` | src/fs/vfs.c:81-81 | the search in a directory's hash table is the lookup in the map it stands for |
| `VirtualFileSystem.Vfs.SetEntry` | src/fs/vfs.c:159-159 | setting an entry in a directory's hash table updates that map, and no other directory's |
| `VirtualFileSystem.Vfs.CreateNode` | src/fs/vfs.c:141-163 | afterwards the parent lists a new node, of the kind asked for and empty, under the name; no other lookup, link or mount point of any node differs |
| `VirtualFileSystem.Vfs.CreateDots` | src/fs/vfs.c:27-36 | although both nodes are first entered as ".", afterwards "." and ".." are links to the directory and to its parent; no other lookup, link or mount point differs |
| `VirtualFileSystem.Vfs.VfsCreate` | src/fs/vfs.c:203-219 | in place, for every path, with basename writing into the caller's buffer, exactly the specified creation; nothing changes when it answers NULL |
| `TempFiles.Created` | src/fs/tmpfs.c:7-24 | a new regular file satisfies the file invariant |
| `TempFiles.GrownFits` | src/fs/tmpfs.c:43-52 | after the growth test the write fits the buffer, the size has not gone down and the old contents are a prefix |
| `TempFiles.WriteBytes` | src/fs/tmpfs.c:40-57 | a write puts its bytes in place and changes no other byte that was there |
| `TempFiles.SizeCoversExactly` | src/fs/tmpfs.c:46-52 | the size covers a write exactly when it lay inside the old size or the buffer grew |
| `TempFiles.SizeLagsBehind` | src/fs/tmpfs.c:26-52 | two writes after which a read across the size misses the second and a read from past the size finds it |
| `TempFiles.WholeReadExactly` | src/fs/tmpfs.c:26-38 | a read returns all it asks for exactly when that lies inside the size or, from past the size, inside the buffer |
| `TempFiles.RunKeepsWrites` | src/fs/tmpfs.c:40-57 | over any run of writes the invariant holds, the size never goes down, and the last value written to every byte is there |
| `TempFiles.ReadBack` | src/fs/tmpfs.c:26-38 | after any run of writes a read that stays in the buffer returns the last byte written at every place, and zero in the first block where nothing was |
| `TempFiles.TmpFile.Realloc` | src/memory/kheap.c:122-141 | a larger buffer that starts with the old contents |
| `TempFiles.TmpFile.WriteAt` | src/fs/tmpfs.c:40-57 | in place, exactly the specified write |
| `TempFiles.TmpFile.ReadAt` | src/fs/tmpfs.c:26-38 | in place, from any offset, exactly the specified read; the offset advances by what was read |
| `BootArchive.Oct2Int` | src/fs/initramfs.c:43-50 | the loop is the specified 64-bit value of the field up to its first NUL |
| `BootArchive.OctRoundTrip` | src/fs/initramfs.c:43-50 | a NUL-terminated octal field of up to 11 digits reads back as the number it was written from |
| `BootArchive.RouteUnique` | src/fs/initramfs.c:58-84 | memory determines which members the walk sees |
| `BootArchive.WalkVisitsMembers` | src/fs/initramfs.c:58-84 | on a ustar archive followed by a block that is no header, the walk visits exactly the members, in order and with their sizes, and stops |
| `BootArchive.MemberContents` | src/fs/initramfs.c:69-70 | behind each header stand that member's own bytes |
| `BootArchive.FreedBeforeNext` | src/fs/initramfs.c:81-83 | every frame freed at a member ends at or before the next header, for every size and any start |
| `BootArchive.FreedOnce` | src/fs/initramfs.c:81-83 | no frame is freed at two members |
| `ArchiveReclaim.ReclaimSafe` | src/fs/initramfs.c:59-84 | however allocations of frames and writes to them interleave with the walk, which frees what it has passed, it reads every member as it was archived, none twice and none skipped, and what it has still to read is neither handed out nor changed |
| `BootArchive.ReadArchive` | src/fs/initramfs.c:58-84 | in place, visits the specified members and frees exactly the specified frames |
| `BootFiles.ItemRoundTrip` | src/fs/initramfs.c:60-80 | name, type and contents read out of a member are those it was archived from |
| `BootFiles.InstallKeeps` | src/fs/initramfs.c:64-80 | with names for values: installing one member leaves every other member's path, kind and contents as they were |
| `BootFiles.AllInstalled` | src/fs/initramfs.c:59-84 | with names for values: after any members, whatever their types, every file and directory among them is found at its path with its kind and contents |
| `BootTree.CreateExactly` | src/fs/vfs.c:203-219 | from the root, a path of ordinary segments can be created exactly when its segments but the last lead to a directory that has no entry of the last name |
| `BootTree.InstallsExactly` | src/fs/initramfs.c:59-84 | with names for values: the loop meets no failed assertion exactly when no path is named twice and every directory before what is in it; then the tree holds the archive's paths, with their kinds, and no others |
| `BootTree.MountedIs` | src/fs/vfs.c:237-243 | the tree that mounting a file system on the new root directory leaves |
| `PointerTable.FilledIsMap` | src/lib/hashmap.c:19-78 | with keys as the pointers that are kept: after any sequence of sets, as long as memory holds every key as it did, the table answers as the map of what was set |
| `PointerTable.GetSureExactly` | src/lib/hashmap.c:19-32 | a search gives one answer however certain frames are overwritten, exactly when the key found is not in them and no key before it in the bucket can be made to spell the text |
| `KeyedTree.ViewOk` | src/fs/vfs.c:141-163 | whatever memory holds, the tree that its names spell is well formed |
| `KeyedTree.MadeOk` | src/fs/vfs.c:141-163 | entering a node under a pointer is, with memory as it is, creating it in the tree that the names spell |
| `KeyedTree.PathSureExactly` | src/fs/vfs.c:80-98 | a path leads to one node however certain frames are overwritten, exactly when each search along it is sure in that sense |
| `ArchiveReclaim.Reach` | src/fs/initramfs.c:81-82 | any memory that differs only in frames that are free or in others' hands can come about |
| `BootKeys.KeySpells` | src/lib/str.c:96-108 | the name that a member's node is entered under stands in the member's header and spells the last component of its path |
| `BootKeys.AdvanceOpens` | src/fs/initramfs.c:81-82 | a turn of the loop puts within others' reach the frames it frees, but for those that the allocator does not hand out |
| `BootExact.SureRun` | src/fs/initramfs.c:59-84 | a boot all of whose searches are sure agrees, turn by turn, with the one nobody disturbs |
| `BootDisturb.DivergeFrom` | src/fs/initramfs.c:59-84 | from a search that is not sure on, others can bring about that the boot halts or ends with other tables |
| `BootDisturb.BootExactly` | src/fs/initramfs.c:59-84 | every run comes to the same tables and files, with the path leading to the same node, exactly when every search of the undisturbed boot, and the one for the path at its end, is sure |
| `BootInstall.QuietInstalls` | src/fs/initramfs.c:59-84 | a turn that nobody disturbs is the installation with names for values |
| `BootInstall.BootInstalls` | src/kernel.c:39-46 | from the archive's bytes and the file tree as it is first set up: left alone, the boot meets no failed assertion exactly when the archive is in order, and then its tree has the archive's paths and no others, and every member with its kind and contents; and however others overwrite frames, it comes to that, and a member's path to its node, exactly when the searches are sure |
| `BootFirm.OpensExactly` | src/fs/initramfs.c:81-82 | what is within others' reach is what was at the start and the frames freed since that the allocator hands out |
| `BootFirm.SureFirm` | src/lib/hashmap.c:63-63 | a path that is sure at the end has the name of its last component out of reach |
| `BootFirm.PathNeedsFirm` | src/fs/initramfs.c:59-84 | a member's path is kept on every run only if neither its own last component nor that of a directory on its way is within others' reach |
| `BootFirm.FirmExactly` | src/fs/initramfs.c:59-84 | all paths of an archive in order lead to their members on every run, exactly when no frame that the walk frees and the allocator hands out holds a byte of the last component of a member's path |
| `BootFirm.SmallLasts` | src/fs/initramfs.c:81-82 | so they do when every member, header included, is shorter than a frame |
| `BootPacked.PackedFrom` | src/fs/initramfs.c:20-37 | every file or directory that a ustar header has room for makes a member archived from it |
| `BootPacked.PackedBoots` | src/fs/initramfs.c:52-85 | a boot from an archive so made, left alone, fails an assertion exactly when the items are out of order, and otherwise installs each |
| `BootPacked.TwiceFails` | src/fs/initramfs.c:66-69 | archives that name a path twice, on which it fails |
| `BootPacked.OrphanFails` | src/fs/initramfs.c:66-69 | archives with a file before the directory it is in, on which it fails |
| `BootImpostor.ImpostorUnsure` | src/lib/hashmap.c:19-32 | a name of the same hash and length that was entered before and is within reach makes the search for another unsure |
| `BootImpostor.ImpostorFound` | src/fs/initramfs.c:59-84 | an archive of two files and a path whose own name is out of reach, and which is not kept on every run |
| `BootPacked.NameOverwritten` | src/fs/initramfs.c:62-82 | an archive of one file of 3584 bytes and a run of three steps after which its path finds nothing, the tables being what they were |

## Left out

- Devices and CPU plumbing (serial, PIT, LAPIC, PS/2, framebuffer, GDT, IDT, MSRs, assembly): hardware effects or bit packing.
- Saved register contexts, page-table base switching and TLB invalidation: a thread's state is not modelled.
- SmpScheduler.SchedulerExcludes: thread numbers are never used twice there; records that are used again are in `RecordReuse`, for ordinary threads, not for the idle thread of a CPU that comes up later.
- SerialisedExits.SerialisedRunsExclude: an enqueue is one step there; write by write it is in `FineEnqueues`, where no exit begins while an enqueue is going on.
- QueueLock.EnqueuesExactly: the spin loop's deadlock assertion after ten million tries is not modelled; a caller may spin for ever.
- KernelHeap.AllocOk: out of memory answers None, where the code goes on with physical address 0; sizes within one frame of 2^64, where the size computation wraps, are not modelled.
- KernelHeap.HeapConserves: distances are in bytes, where the compiled code scales them, which `ScaledHeap.CompiledConserves` is about; releases are those on the list path.
- KernelHeapList.KHeap.KheapFree: the branch that hands whole frames back is not modelled; it needs a block that starts 24 bytes into a frame.
- KernelHeapList.KHeap.KheapAlloc: requires that the pass it may run is harmless, as it always is with distances in bytes; `ScaledHeap` says what becomes of the heap otherwise.
- HashTable.TableIsMap: keys are values; with the pointers that the table keeps it is `PointerTable.FilledIsMap`. `hashmap_remove` and a table with no buckets are not modelled.
- HashTable.HashMap.Set: likewise.
- VirtualFileSystem.Vfs.VfsCreate: a directory's table is the sequence of its buckets, changed by the function that `HashTable.HashMap.Set` is proved against.
- FileTree.PathIsFold: lookups inside a node that is no directory answer Fault (a null dereference); empty, "." and ".." segments are outside the theorem.
- FileCreation.CreateThenLookup: names, owners and file systems of nodes are not modelled, and every directory belongs to one file system.
- TempFiles.TmpFile.Realloc: takes its buffer from the language, not from the modelled heap, and always succeeds.
- ElfLoader.LoadedImage: segments must lie on pairwise different pages and not ask for more than 2^36 pages.
- ProgramStart.StartedProgram: one file is loaded; that loading the interpreter into the same page map afterwards leaves the first image alone is `ElfLoader.LoadLeavesOthers`.
- UserThread.ProgramStarts: the strings and vectors must fit the stack; several threads of one process, whose stacks overlap by a page, are not modelled.
- BootArchive.ReadArchive: an archive that runs off the end of memory is not modelled; what the loop does with a member is in `BootFiles`, and what others do to the freed frames meanwhile is in `ArchiveReclaim`.
- BootFiles.InstallKeeps: names are values, which `BootInstall.QuietInstalls` ties to names in memory that is left alone. The same holds of `BootFiles.AllInstalled` and `BootTree.InstallsExactly`.
- BootInstall.BootInstalls: the paths installed are of ordinary segments; allocation failures inside the heap are not modelled. A member's lookup, entry and release are one step: others' writes come before or after it, not within.
- Locks other than the scheduler's: `pmm`, `vfs`, heap and file locks serialise their operations, which are modelled one at a time.
- `vector.c`, `ext2fs.c`, ACPI tables, file descriptors and the other system calls.

# The EXEC core of DOS-C32, modelled in Dafny

This project models the part of the DOS-C32 kernel that starts a program
(INT 21h/4Bh) and everything that call has to keep intact: guest memory behind a
possibly faulting machine adapter, the memory control block (MCB) chain, memory
leases, system file tables and the references job file tables hold on them, the
EXEC memory journal, the image loader and relocator, the child's PSP, the seal
that publishes a child, the sessions a backend runs, interrupt reflection with
IRET, and path canonicalisation.

Objects the kernel updates in place are classes with the same fields; pure
computations are functions; loops are loops with invariants. Guest memory is a
sequence of bytes, and a transfer is a list of addresses, so 16-bit offset
wrap-around and A20 aliasing are visible in every contract. Callbacks into code
outside the kernel (machine backend, file system, device drivers, execution
backend) may answer anything at any time; ghost counters such as `faults` and
`failures` count the times they let the kernel down, so contracts can say both
what holds always and what succeeds when nothing goes wrong.

## Main results

* **File references.** Over every run of open, close, inheritance (prepare,
  commit, abort, retire) and process termination, each file's count is the number
  of live table entries naming it plus those of prepared batches, a local device
  is open once per reference, and a published file's backend has been closed
  exactly if nothing refers to it (`FileWorld.Files.Run`).
* **The MCB chain** tiles the arena after every single header write of every
  operation, and allocation finds a block exactly when some merged free run is
  large enough, choosing as the strategy says (`MemoryArena.Arena.Allocate`). What a
  chain is in raw bytes is `McbBytes.ChainBytes`.
* **EXEC leaves no trace when it is given up.** After any steps, a successful
  abort of a launch still in preparation restores allocated blocks, memory
  outside free memory, file counts and the current process
  (`ExecTransaction.Launch.BeginAdvanceAbort`).
* **Giving up succeeds without faults, with exactly one exception.** If neither
  machine nor file system fails and no session was prepared, an abort succeeds
  exactly unless the launch has failed with its owner changes still planned
  (`ExecTransaction.Launch.Abort`). A malformed answer while the backend prepares
  its session leaves that record (`ExecTransaction.Launch.PrepareBackend`); from
  then on every call refuses it and the launch keeps all it holds
  (`ExecTransaction.Launch.PoisonedBackendSticks`).
* **A session runs only after the launch of its own child is complete**, over any
  calls of any number of launches (`ExecTransaction.Launch.Drive`), and the seal
  that completes it is atomic (`ExecSeal.SealServices.Commit`).
* **A launch that is ready is published.** With the exclusive gate the final call
  succeeds exactly for a dormant launch (or, load-only, one whose memory is ready)
  unless the session table is poisoned or the runtime's generation used up
  (`ExecTransaction.Launch.SealExecute`, `ExecTransaction.Launch.SealLoadOnly`).
* **The staged PSP equals the in-place PSP** for every overlap of parent, FCBs,
  command tail and child, whatever became of the parent since it was captured
  (`PspBuild.PreparePsp`), and put in place it is where the file system finds the
  inherited table (`PspFiles.ReadyToCommit`).
* **Journal, relocation, MZ load, far transfers** equal their simple meanings
  (`ExecJournal.Journal.Abort`, `Relocator.Apply`, `MzLoad.LoadMzResident`,
  `GuestMachine.Machine.ReplaceFar`).
* **Interrupted programs resume**: whatever a handler does and however deeply it
  is interrupted itself, its IRET gives back CS, IP, SP and flags
  (`InterruptReflection.InterruptReturns`).
* **Canonical paths** are printed component stacks and fixed points of
  canonicalisation (`PathCanonicalize.CanonicalPaths`).

Where code and documentation differ, the model follows the code. The
abort described above is refused because the encoding check of every call does not
list a failed launch among those with planned owner changes
(`dos/exec_transaction.c:1912-2028`), while the poisoned prepare leaves one
(`dos/exec_transaction.c:4344-4346`). IRET always sets
bit one of the flags, so "restores the flags" holds up to that bit
(`dos/control_instruction.c:75-82`). INT 21h/49h accepts any paragraph that carries
a header signature, in the chain or not (`dos/memory.c:626-661`); the chain keeps
tiling either way, which is what `MemoryArena.Arena.Free` states. SETBLOCK makes
the block the caller's, whoever owned it, and reads the paragraph below the block
without walking the chain (`dos/memory.c:833-867`): `MemoryArena.Arena.Resize` is
about the chain's own blocks, `ArenaStray.ResizeStray` about every other paragraph,
where the chain survives exactly if the second header written hits no header of the
chain or repeats it. `ArenaStray.StrayBreaksChain` gives a memory where it does not.

`FileWorld.Files.Run` takes the child's PSP to be in place when an inheritance is
committed, as EXEC's order has it; `FileWorld.Files.CommitInheritance` therefore
refuses a PSP without the child's table, a check the batch itself does not make.
`PspFiles.ReadyToCommit` proves that the PSP the launch builds passes it.

## Model

| member | source | states |
|---|---|---|
| `GuestMemory.LinearWrapsAtMegabyte` | dos/machine.c:190-209 | a real-mode address is sixteen times the segment plus the offset, and with A20 masked that modulo one megabyte |
| `GuestMemory.FarRangeMeaning` | dos/machine.c:190-209 | byte i of a far object lies at sixteen times the segment plus the offset plus i modulo 64 Ki, and with A20 masked that modulo one megabyte |
| `GuestMemory.FarRangeInjective` | dos/machine.c:240-276 | the bytes of a far object of at most 64 KiB have pairwise different linear addresses, whatever wraps |
| `GuestMemory.StoreLast` | dos/machine.c:278-312 | where a transfer names an address twice, the byte written last stays |
| `GuestMemory.StoreRestores` | dos/machine.c:314-340 | writing the saved bytes of a range back undoes any change confined to the range, even where its addresses repeat |
| `GuestMachine.TransferChunk` | dos/machine.c:190-209 | every chunk of a far transfer is nonempty and no longer than what is left |
| `GuestMachine.ChunkIsLinear` | dos/machine.c:190-209 | inside a chunk, the wrapped far addresses are consecutive linear ones |
| `GuestMachine.Machine.Read` | dos/machine.c:110-135 | returns exactly the addressed bytes; fails without a fault exactly when the range leaves memory |
| `GuestMachine.Machine.Write` | dos/machine.c:137-160 | writes exactly the addressed bytes; a faulty write touches nothing outside the range |
| `GuestMachine.Machine.Replace` | dos/machine.c:162-188 | all or nothing unless the undo itself fails, and returns the displaced bytes |
| `GuestMachine.Machine.ValidateFar` | dos/machine.c:211-238 | succeeds without a fault exactly when every byte of the far object exists |
| `GuestMachine.Machine.ReadFar` | dos/machine.c:240-276 | the chunked read equals reading byte i at the wrapped offset, for every count and A20 setting |
| `GuestMachine.Machine.WriteFar` | dos/machine.c:278-312 | the chunked write equals writing byte i at the wrapped offset; partial failures stay inside the object |
| `GuestMachine.Machine.ReplaceFar` | dos/machine.c:314-340 | all or nothing under partial-write faults for every result but ROLLBACK_FAILED |
| `ExecJournal.UndoRecorded` | dos/exec_journal.c:179-229 | recording the displaced bytes makes a write invisible to undoing, whatever earlier records overlap or wrap |
| `ExecJournal.UndoStages` | dos/exec_journal.c:231-254 | undoing to a mark and then to the start is undoing to the start |
| `ExecJournal.RecordsHold` | dos/exec_journal.c:256-303 | a span fits the free records exactly if it has at most 64 bytes for each of them |
| `ExecJournal.Journal.StageReplaceFar` | dos/exec_journal.c:179-229 | adds one record, keeps the journal's base memory; a refusal or repaired fault changes nothing |
| `ExecJournal.Journal.RestoreTo` | dos/exec_journal.c:231-254 | undoes the youngest records, youngest first, back to the target count, keeping the base memory |
| `ExecJournal.Journal.StageReplaceFarSpan` | dos/exec_journal.c:256-303 | a span of any length is staged whole or memory and record count are as at entry, unless poisoned |
| `ExecJournal.Journal.Abort` | dos/exec_journal.c:305-325 | success restores the memory of initialisation; without a fault a staging journal's abort succeeds |
| `ExecJournal.Journal.Seal` | dos/exec_journal.c:366-384 | succeeds exactly for a staging or sealed journal of that machine, and forgets the records; a refusal changes nothing |
| `McbChain.ChainUnique` | dos/memory.c:202-212 | memory holds at most one chain from a head, ending where it ends |
| `McbChain.ChainLength` | dos/memory.c:202-212 | every block takes at least one paragraph, so a chain has no more blocks than paragraphs |
| `McbBytes.HeaderBytes` | dos/memory.c:45-99 | a block stands in memory exactly if the raw bytes do: `M` or `Z`, then owner and size, low bytes first |
| `McbBytes.ChainBytes` | dos/memory.c:45-126 | memory holds a chain exactly if every header holds as raw bytes, `Z` at the last alone |
| `McbBlocks.MergeMeaning` | dos/memory.c:243-277 | merging free runs leaves a tiled chain without adjacent free blocks, the same allocated blocks and the same free paragraphs |
| `McbMeaning.OwnedApart` | dos/memory.c:214-277 | two blocks of a tiled chain share no paragraph |
| `McbMeaning.GrantMeaning` | dos/memory.c:424-530 | a grant adds exactly the granted block, out of what was free |
| `McbMeaning.FreeMeaning` | dos/memory.c:626-653 | releasing a block removes exactly it and its paragraphs become free |
| `McbMeaning.TransferMeaning` | dos/memory.c:764-783 | handing a block over changes its owner and nothing else |
| `McbMeaning.MergedMeaning` | dos/memory.c:355-402 | a partly or fully merged chain has the same holdings |
| `MemoryArena.Arena.ReplaceRecord` | dos/memory.c:182-200 | one header write happens, is repaired, or poisons the arena |
| `MemoryArena.Arena.CommitSplit` | dos/memory.c:215-241 | both headers of a split are written, or the hidden one is taken back; the chain tiles after each write |
| `MemoryArena.Arena.CoalesceForward` | dos/memory.c:243-277 | swallows exactly the free run behind a block, one header write each, the chain tiling in between |
| `MemoryArena.Arena.Initialize` | dos/memory.c:279-314 | formats one free block tiling the arena under a new generation, byte by byte a `Z` header of owner zero and otherwise zero bytes; without faults exactly if the head's paragraph exists |
| `MemoryArena.Arena.FindCandidates` | dos/memory.c:355-402 | merges every free run and finds the lowest, the smallest and the highest fitting block and the largest free size |
| `MemoryArena.SurveyResult` | dos/memory.c:355-402 | the surveyed positions are the strategies' choices, and none is found only if no merged run fits |
| `MemoryArena.Arena.QueryMaximum` | dos/memory.c:404-422 | reports the largest merged free size |
| `MemoryArena.Arena.AllocateLow` | dos/memory.c:424-477 | takes the low end of a free block, leaving the rest free; a fault leaves memory as it was |
| `MemoryArena.Arena.AllocateHigh` | dos/memory.c:479-530 | takes the high end of a free block, leaving the rest free; a fault leaves memory as it was |
| `MemoryArena.Arena.Allocate` | dos/memory.c:532-570 | without faults, succeeds exactly when a merged free run fits, with the strategy's block; reports the true maximum; the chain tiles throughout; on success the raw bytes are those of the chain, the granted header with the owner's word and name |
| `MemoryArena.GrantLeaves` | dos/memory.c:424-530 | a granted block's header holds owner, size and name as raw bytes, whichever end it was taken from |
| `MemoryArena.Arena.LocateMcb` | dos/memory.c:595-624 | on a chain, finds a header exactly when it is one of the chain's |
| `MemoryArena.Arena.FreeOwned` | dos/memory.c:663-670 | without faults, succeeds exactly for a chain block of the expected owner, and clears just that owner |
| `MemoryArena.Arena.Free` | dos/memory.c:655-661 | clears the owner of any paragraph with a header signature; the chain keeps tiling |
| `MemoryArena.Arena.PrepareRebind` | dos/memory.c:692-732 | computes the header that hands a block over, without writing, exactly for a chain block of the expected owner |
| `MemoryArena.Arena.TransferOwner` | dos/memory.c:764-783 | without faults, succeeds exactly for a chain block of the expected owner, and changes just its owner |
| `MemoryArena.Arena.Resize` | dos/memory.c:833-867 | swallows the free run behind the block, succeeds exactly if that suffices, splits off the rest and makes the block the caller's |
| `ArenaStray.StrayWrite` | dos/memory.c:182-200 | a paragraph written anywhere keeps the chain exactly if it is no header of it, or the very header that stands there |
| `ArenaStray.CoalesceStray` | dos/memory.c:243-277 | off the chain, the record takes in whatever looks free behind it, and the chain keeps tiling after every write |
| `ArenaStray.SplitStray` | dos/memory.c:215-241 | off the chain, both headers are written or the hidden one is taken back; the chain survives exactly if the remainder's header fits it |
| `ArenaStray.ResizeStray` | dos/memory.c:833-867 | on a paragraph that is no chain header: memory changes as computed at two paragraphs, and the chain survives exactly if the second hits no header or repeats it |
| `ArenaStray.StrayBreaksChain` | dos/memory.c:833-867 | a memory in which such a resize is accepted and leaves no chain that tiles the arena |
| `McbRelease.Disowned` | dos/memory.c:869-921 | no block of the process is left and every other owner, size and position is unchanged |
| `McbRelease.WalkEnds` | dos/memory.c:869-921 | a complete walk turned a chain into the same chain without the owner, changing owner bytes only |
| `McbRelease.WalkGains` | dos/memory.c:202-212 | every step of a walk moves forward, so the walk bound cannot be exhausted |
| `MemoryArena.Arena.FreeProcess` | dos/memory.c:869-921 | on any memory contents: success means no block of the process is left and only owner words changed; other results but poisoning change nothing |
| `LeaseSlots.HandleRoundTrip` | dos/memory_lease.c:95-132 | decoding a made handle gives its table, slot and generation |
| `LeaseSlots.HandleUnique` | dos/memory_lease.c:95-132 | a decodable handle is the one made from its fields |
| `LeaseSlots.HandleSpelled` | dos/memory_lease.c:95-132 | a handle decodes to a table, slot and generation exactly if it is that table times 2^32 plus sixteen times the generation plus the slot, each in its range |
| `LeaseSlots.HeldMeaning` | dos/memory_lease.c:330-374 | active leases are chain headers with the lease's owner and size, and share no paragraph |
| `MemoryLease.LeaseTable.ReserveSlot` | dos/memory_lease.c:219-251 | takes the first reusable slot under a new generation; exhaustion is reported exactly when every generation is used up |
| `MemoryLease.LeaseTable.Acquire` | dos/memory_lease.c:253-307 | a fresh handle for a block nobody held and the true largest free size, or no lease and no block changed; succeeds without faults if a slot and a merged run are there |
| `MemoryLease.LeaseTable.FindSlot` | dos/memory_lease.c:330-374 | a handle is found exactly in its own table, generation, arena life and owner, and only in an arena in use |
| `MemoryLease.LeaseTable.ResolveActive` | dos/memory_lease.c:376-416 | resolves exactly an active lease of an arena that is not poisoned |
| `MemoryLease.LeaseTable.NeverAnotherBlock` | dos/memory_lease.c:95-132 | over the table's whole life a handle that resolves was issued by the table, and for that very block |
| `MemoryLease.LeaseTable.TransferOwner` | dos/memory_lease.c:433-477 | slot and block change owner together or not at all; succeeds without faults for an active lease |
| `MemoryLease.LeaseTable.PrepareRebind` | dos/memory_lease.c:542-589 | the plan passes the publish preflight and rewrites exactly the lease's header, the record being the old one with owner and name replaced |
| `MemoryLease.LeaseTable.PreflightRebind` | dos/memory_lease.c:615-645 | a plan passes exactly against the active lease it was made for, with a header of the new owner's that can stand there |
| `MemoryLease.LeaseTable.PublishRebind` | dos/memory_lease.c:647-671 | succeeds exactly if the preflight does, and then ends the lease with the new owner |
| `MemoryLease.LeaseTable.Publish` | dos/memory_lease.c:692-714 | ends an active lease with its owner, may be repeated, and disturbs no other lease |
| `MemoryLease.LeaseTable.Finish` | dos/memory_lease.c:716-747 | frees the block of an active lease and ends it; a repaired fault keeps both; aborting twice is allowed |
| `SftCounts.RaiseMeaning` | dos/sft_batch.c:185-264 | raising counts by a list adds to each file the number of its mentions |
| `SftCounts.SlotWords` | dos/sft_batch.c:164-169 | flag and sharing words by their bits: bit 15 marks a network file, bit 12 or sharing mode 7 keeps a file from children |
| `SftCounts.DropAllMeaning` | dos/sft_batch.c:127-162 | giving a list back subtracts mentions, and a file whose count reaches zero is recycled |
| `SftCounts.ClosingsMeaning` | dos/sft_adapter.c:169-201 | a backend is closed exactly when its count reaches zero, and once |
| `SftCounts.RaiseThenDrop` | dos/sft_batch.c:322-351 | giving back what was just taken restores the registry and closes nothing |
| `SftRegistry.ReferenceRoundTrip` | dos/sft_adapter.c:84-129 | a reference names its slot and generation |
| `SftRegistry.Registry.ResolvedExactly` | dos/sft_adapter.c:84-129 | a reference resolves exactly to a slot in use whose number, counted from one, and generation times 512 add up to it, in the registry's own context |
| `SftRegistry.Registry.Lookup` | dos/sft_adapter.c:535-556 | a view is given exactly of a present file with references, under its own reference; a poisoned slot or another context is a fault |
| `SftRegistry.Registry.BindBackendClose` | dos/sft_adapter.c:234-250 | the close callback is bound once, and no slot changes |
| `SftRegistry.Registry.Install` | dos/sft_adapter.c:252-278 | fills exactly a free slot, with balanced counts and a new generation |
| `SftRegistry.Registry.Reserve` | dos/sft_adapter.c:280-319 | takes the lowest usable slot a JFT byte can name, or says why there is none |
| `SftRegistry.Registry.Publish` | dos/sft_adapter.c:321-358 | exactly a reserved slot becomes an open file with one balanced reference |
| `SftRegistry.Registry.Cancel` | dos/sft_adapter.c:360-378 | exactly a reserved slot is free again |
| `SftRegistry.Registry.InvokeBackendClose` | dos/sft_adapter.c:169-201 | a clean close recycles the slot and is logged once; a failed one keeps or poisons it |
| `SftRegistry.Registry.CloseReference` | dos/sft_adapter.c:452-489 | gives one reference back, closing the backend exactly at zero; fails only if the backend does |
| `SftRegistry.Registry.DeviceOpen` | dos/sft_adapter.c:558-575 | opens exactly a balanced local device once more |
| `SftRegistry.Registry.ReferenceAcquire` | dos/sft_adapter.c:577-596 | adds one reference exactly if the device count leads by one |
| `SftRegistry.Registry.ReferenceRelease` | dos/sft_adapter.c:598-627 | takes one reference off, closing a remote file at zero |
| `SftRegistry.Registry.DeviceClose` | dos/sft_adapter.c:629-655 | closes a local device once, recycling the slot at zero |
| `SftBatch.BatchTable.UnwindEntries` | dos/sft_batch.c:127-162 | gives all entries back in reverse, closing exactly the backends whose counts reach zero |
| `SftBatch.BatchTable.Prepare` | dos/sft_batch.c:185-264 | the child gets the parent's byte exactly for a present, referenced file without bit 12 and without sharing mode 7, and FFh otherwise; each count rises by the child's mentions of the file and no other changes; succeeds exactly if no named slot is poisoned, unbalanced or full and a batch slot is free; otherwise the registry is identical; never poisons |
| `SftBatch.InheritanceMeaning` | dos/sft_batch.c:164-264 | the table handed down and the counts raised, stated byte by byte with the masks written out |
| `SftBatch.MayHandDownMeaning` | dos/sft_batch.c:164-264 | inheriting is possible exactly if each named slot can take as many more references as it is named, with the masks written out |
| `SftBatch.BatchTable.FoundExactly` | dos/sft_batch.c:58-81 | a handle finds exactly the batch in use whose number, counted from one, and generation times sixteen add up to it |
| `SftBatch.BatchTable.CopyChildJft` | dos/sft_batch.c:266-287 | gives the child's table of exactly a prepared or committed batch, and reports exactly a poisoned one as poisoned |
| `SftBatch.BatchTable.Commit` | dos/sft_batch.c:304-320 | exactly a prepared or committed batch ends committed, and no other changes |
| `SftBatch.BatchTable.Abort` | dos/sft_batch.c:322-351 | gives the entries back; if that closes no backend it cannot fail; allowed twice |
| `SftBatch.BatchTable.Retire` | dos/sft_batch.c:369-383 | exactly a finished batch is recycled |
| `JobFileTable.ReadJftControl` | dos/int21.c:655-674 | reads the table's place and length, exactly when all of it is mapped |
| `JobFileTable.FindFreeJfn` | dos/int21.c:726-756 | finds the lowest unused entry, or proves there is none |
| `JobFileTable.ReplaceJftEntry` | dos/int21.c:758-786 | changes one entry that still holds the expected value, all or nothing |
| `JobFileTable.CloseHandles` | dos/termination.c:189-268 | gives back every reference of a table in reverse order, closing backends exactly at zero |
| `FileTally.ClosedAtZero` | dos/sft_adapter.c:452-655 | with the books in order, a published file is closed exactly when no table and no prepared batch refers to it |
| `FileTally.TallyPrepare` | dos/sft_batch.c:185-264 | preparing a batch keeps the books in order |
| `FileTally.TallyCommit` | dos/sft_batch.c:304-320 | committing moves a batch's references to the child's table without changing any total |
| `FileTally.TallyTerminate` | dos/termination.c:189-268 | a dying process's table leaves the books in order |
| `FileWorld.NothingHeld` | dos/sft_adapter.c:203-232 | an empty registry without processes is in order |
| `FileWorld.Files.OpenFile` | dos/int21.c:850-924 | a new file at the lowest unused handle with one reference; succeeds without faults if slot and entry are there |
| `FileWorld.Files.PublishOpenHandle` | dos/int21.c:894-924 | file and table entry appear together, or the file is taken back |
| `FileWorld.Files.CloseFile` | dos/int21.c:1567-1601 | without faults, succeeds exactly for an open handle; gives one reference back and clears the entry |
| `FileWorld.Files.PrepareInheritance` | dos/sft_batch.c:185-264 | takes exactly what a child inherits, mask by mask, or nothing; succeeds exactly if that can be taken and a batch slot is free |
| `FileWorld.Files.CommitInheritance` | dos/sft_batch.c:304-320 | the child's table becomes live exactly if its PSP holds it |
| `FileWorld.Files.AbortInheritance` | dos/sft_batch.c:322-351 | gives the batch's references back whatever happened meanwhile; fails only if a backend close fails |
| `FileWorld.Files.TerminateProcess` | dos/termination.c:189-268 | gives back every reference of the process; succeeds without faults |
| `FileWorld.Files.Run` | dos/sft_adapter.c:452-655 | over every unpoisoned run, counts equal live entries plus prepared entries, local devices are open once per reference, and backends are closed exactly at zero; only faults or bad records poison |
| `ExecObserver.Gate.Acquire` | dos/exec_gate.c:79-93 | the exclusive gate grants exactly one interval at a time, each under a new generation |
| `ExecObserver.Gate.Release` | dos/exec_gate.c:95-104 | the exclusive gate takes back exactly the interval it granted |
| `ExecObserver.Observer.Acquire` | dos/exec_observer.c:77-117 | success means the observer holds the interval, at the exclusive gate exactly if that is free, not quarantined and not used up; an unclear answer poisons |
| `ExecObserver.Observer.ValidateHeld` | dos/exec_observer.c:119-135 | passes exactly for a held interval of that adapter and context |
| `ExecObserver.Observer.Release` | dos/exec_observer.c:137-167 | cannot fail for an interval owned at the exclusive gate; otherwise it lets go or poisons |
| `ProcessRuntime.Runtime.PreflightExec` | dos/process_runtime.c:152-171 | exactly the present snapshot of a ready runtime is good for a publication |
| `ProcessRuntime.Runtime.PublishExec` | dos/process_runtime.c:173-190 | makes the child current with its default transfer area, exactly if the preflight passes |
| `ProcessRuntime.Runtime.RestoreParent` | dos/process_runtime.c:192-213 | puts the parent's values back under a new generation exactly if the child's snapshot is present and the parent's is of this runtime, or changes nothing |
| `ExecSeal.SlotsApart` | dos/exec_seal.c:40-67 | two plans of one table with different handles name different slots |
| `ExecSeal.SealServices.Preflight` | dos/exec_seal.c:82-135 | passes exactly if the plan is well formed and observer, journal, both leases, batch and runtime would all accept it; poison is reported only where there is some |
| `ExecSeal.SealServices.PublishedMeaning` | dos/exec_seal.c:82-135 | both blocks of a plan end published and with the child |
| `ExecSeal.SealServices.PublishAll` | dos/exec_seal.c:160-193 | after the preflight every publication succeeds |
| `ExecSeal.SealServices.Commit` | dos/exec_seal.c:160-193 | a refusal changes nothing; otherwise all is published and only the observer release can fail, not with the exclusive gate |
| `BackendSession.SessionHandleRoundTrip` | dos/exec_backend_session.c:201-233 | a session handle names its slot and generation |
| `BackendSession.Sessions.FoundExactly` | dos/exec_backend_session.c:201-260 | a handle finds exactly the session in use whose number, counted from one, and generation times eight add up to it |
| `BackendSession.Sessions.Prepare` | dos/exec_backend_session.c:399-460 | exactly with a vacant slot and a built session: dormant there, under a new generation, bound to backend and machine; a malformed answer poisons; used-up generations are reported exactly when all are; otherwise no slot's state changed |
| `BackendSession.Sessions.Publish` | dos/exec_backend_session.c:518-544 | makes exactly a dormant session with that handoff, backend and machine runnable |
| `BackendSession.Sessions.RunUntilEvent` | dos/exec_backend_session.c:572-618 | the backend runs exactly a runnable session of its own on its own machine, and only after its publication with the same handoff |
| `BackendSession.Sessions.ReplaceState` | dos/exec_backend_session.c:620-670 | registers are replaced exactly if they are what the caller saw, in a runnable session of that backend and machine, and the backend takes them |
| `BackendSession.Sessions.Stop` | dos/exec_backend_session.c:672-707 | the answer decides: let go means stopped in its slot, held on means unchanged, nonsense poisons; a session of another backend is refused |
| `BackendSession.Sessions.Retire` | dos/exec_backend_session.c:709-725 | exactly a stopped session's slot becomes vacant |
| `ExecSlot.RefusedExactly` | dos/exec_transaction.c:2076-2253 | between calls the encoding check refuses exactly the failed launch with planned owner changes |
| `ExecSlot.AsksBackend` | dos/exec_transaction.c:4306-4365 | a launch ready for its handoff becomes dormant, or, after a malformed answer, the record no call accepts |
| `ExecSlot.HandsOff` | dos/exec_transaction.c:4245-4304 | handing off keeps the record acceptable, and so does forgetting the owner changes when it fails |
| `ExecSlot.GivesUp` | dos/exec_transaction.c:4557-4722 | every launch that may be given up holds blocks and references only together with its file, and a session only while dormant |
| `ExecMemory.KeptLose` | dos/exec_transaction.c:4574-4722 | freeing a held block leaves memory as at begin but for what is still held |
| `ExecMemory.FillKeepsChain` | dos/exec_transaction.c:3429-3528 | loading into a held block keeps the chain |
| `ExecState.MemoryJournalled` | dos/exec_transaction.c:4031-4098 | journalled changes do not count against the launch |
| `ExecState.MemoryRestored` | dos/exec_transaction.c:4574-4722 | with nothing held, allocated blocks and all bytes outside free memory are as at begin |
| `ExecPatch.AllWrittenMeaning` | dos/exec_transaction.c:4031-4098 | after a list of writes each byte is that of the last write that names its address, or the old one |
| `ExecPatch.RebindsHandOver` | dos/exec_transaction.c:4183-4209 | writing the planned headers changes exactly the owner words of both blocks, low byte first, and the load block's name |
| `ExecTransaction.Launch.Begin` | dos/exec_transaction.c:2693-2766 | takes the interval and snapshots the parent, or leaves the launch as it was, or poisons; with the exclusive gate succeeds exactly if that is free, the launch has not begun, the arena is usable and not poisoned and the runtime is ready |
| `ExecTransaction.Launch.OpenFile` | dos/exec_transaction.c:2768-2854 | holds the executable's lease on success; every outcome keeps the launch accounted for; an observed launch is stopped only by a failing file system |
| `ExecTransaction.Launch.ReadingStep` | dos/exec_transaction.c:2855-4029 | the six steps that only read lead from each of their states to the next one, exactly if the reading succeeds and, except for probing and finalising, the runtime generation is not used up; a failure fails or poisons the launch and nothing else |
| `ExecTransaction.Launch.PrepareEnvironment` | dos/exec_transaction.c:3062-3170 | a block of the size asked for is leased to the parent and filled, or nothing is held for it; without faults succeeds if there is room |
| `ExecTransaction.Launch.PrepareTarget` | dos/exec_transaction.c:3315-3399 | a load block of the planned size is leased to the parent, or nothing is held for it; without faults succeeds if there is room |
| `ExecTransaction.Launch.LoadResident` | dos/exec_transaction.c:3429-3555 | on success the file's bytes lie where the image belongs: a high MZ image at the end of the load block, any other right behind the PSP; in any case nothing outside the block has changed; without faults succeeds if the image can be laid out and falls short by less than 512 bytes |
| `ExecTransaction.Launch.Relocate` | dos/exec_transaction.c:3557-3650 | on success memory is the fold of the relocation table with the load segment as factor, or the same for a COM image; in any case nothing outside the block has changed; without faults succeeds if every entry is good |
| `ExecTransaction.Launch.PrepareInheritance` | dos/exec_transaction.c:3756-3819 | the batch is held on success, which is exactly if everything can be inherited and a batch slot is free; a failure leaves the file counts of begin |
| `ExecTransaction.Launch.StageProcessMemory` | dos/exec_transaction.c:4031-4098 | on success memory is what it was with the PSP at the load block and the given words written, all journalled; a failure undoes or poisons; without faults succeeds if the writes fit journal and memory |
| `ExecTransaction.Launch.StageGlobalMemory` | dos/exec_transaction.c:4147-4243 | on success memory is what it was with the owner words of environment and load block and the load block's name changed, then the terminate vector from the PSP and, for load-only, the result words; all journalled, with plans that match the leases; without faults succeeds if that fits journal and memory |
| `ExecTransaction.Launch.PrepareHandoff` | dos/exec_transaction.c:4245-4304 | on success memory is what it was with the stack words written and the handoff names the child; a failure forgets the owner changes; without faults succeeds if the words fit |
| `ExecTransaction.Launch.PrepareBackend` | dos/exec_transaction.c:4306-4365 | exactly when it is ready, has room and the session is built: dormant; a poisoned table is refused; a malformed answer leaves the record no call accepts |
| `ExecTransaction.Launch.SealExecute` | dos/exec_transaction.c:4397-4458 | with the exclusive gate succeeds exactly for a dormant launch unless the session table is poisoned or the runtime generation used up; success: memory sealed, both leases published to the child, batch committed, child current, observers let in, and the session runnable and logged with its child; a refusal changes nothing |
| `ExecTransaction.Launch.SealLoadOnly` | dos/exec_transaction.c:4460-4501 | the same publication without a session, with the exclusive gate exactly for a load-only launch whose memory is ready unless the runtime generation is used up; a refusal changes nothing |
| `ExecTransaction.Launch.SealReady` | dos/exec_seal.c:82-135 | whatever a launch in preparation has planned passes the seal's preflight, exactly unless the runtime's generation is used up |
| `ExecTransaction.Launch.AbortInheritance` | dos/exec_transaction.c:4574-4722 | giving the batch back cannot fail, closes no backend and restores the counts of begin |
| `ExecTransaction.Launch.FreeBlock` | dos/memory_lease.c:716-747 | with the journal undone, freeing a leased block fails only on a machine fault |
| `ExecTransaction.Launch.GiveUp` | dos/exec_transaction.c:4574-4722 | success restores begin, vacates the file lease and releases the observer; without faults record, session table and backend answer decide the outcome |
| `ExecTransaction.Launch.Abort` | dos/exec_transaction.c:4574-4722 | success from any preparation state restores begin; without faults and with the exclusive gate the outcome is fixed, and without a session it is success exactly unless the launch failed with planned owner changes; that one, like every state that cannot be aborted, is left untouched |
| `ExecTransaction.Launch.Retire` | dos/exec_transaction.c:4724-4750 | exactly an aborted launch makes room for another |
| `ExecTransaction.Launch.RunSession` | dos/exec_backend_session.c:572-618 | the session that runs was published by a complete launch of the child its handoff names |
| `ExecTransaction.LaunchLog.RanAfterLaunch` | dos/exec_backend_session.c:518-618 | every session that ever ran became runnable through a complete launch of its own child |
| `ExecTransaction.Launch.Drive` | dos/exec_transaction.c:2693-4750 | for any calls in any order, begin, abort and retire included, every session that ran belongs to a complete launch of its own child, and a launch no call accepts stays as it is |
| `ExecTransaction.Launch.PoisonedBackendSticks` | dos/exec_transaction.c:4344-4346 | after a malformed answer to the prepare request and any further calls, giving up is refused and everything is still held |
| `ExecTransaction.Launch.BeginAdvanceAbort` | dos/exec_transaction.c:4574-4722 | begin, any steps, then a successful abort in preparation: as if it had never begun |
| `PspWindow.ShowsRead` | dos/process.c:463-478 | reading a source in place finds the staged byte where the copy already wrote, and memory elsewhere |
| `PspWindow.ShowsCopyApart` | dos/process.c:486-527 | a source outside the PSP may be copied in one piece |
| `PspBuild.CpmCallReachesEntry` | dos/process.c:86-143 | the far call in every PSP aliases the entry at linear C0h |
| `PspBuild.FieldsLaid` | dos/process.c:86-143 | parent, job file table, environment and table pointer end up where programs look for them |
| `PspBuild.FieldsBytes` | dos/process.c:86-143 | each field by offset and bytes: the INT 20h, block end, far call to C0h, the terminate, Ctrl-C and critical-error vectors in that order, parent, twenty handles, environment, table length and pointer, the end of the PSP list and the INT 21h/RETF |
| `PspBuild.StagedAlias` | dos/process.c:400-421 | finds the staged byte a guest address names, under A20 aliasing too |
| `PspBuild.StageParentCopy` | dos/process.c:429-461 | the private copy of the parent equals the in-place word copy, however the two PSPs overlap |
| `PspBuild.StageCaptured` | dos/process.c:429-461 | the same from the captured bytes, over memory as it is now |
| `PspBuild.ParentUnchanged` | dos/process.c:429-461 | if the parent has not changed since, that is the plain in-place word copy |
| `PspBuild.StageRepMovsb` | dos/process.c:486-527 | a private forward byte copy equals the in-place one, however source and PSP overlap |
| `PspBuild.PreparePsp` | dos/process.c:529-612 | the private PSP equals, byte for byte, what building it in place would leave in the child's 256 bytes; every field is at its literal offset with its literal value, low bytes first, and the rest comes from parent, FCBs and command tail |
| `PspFiles.PspInPlace` | dos/process.c:86-143 | the PSP written at its segment is found with exactly the child's table of twenty handles |
| `PspFiles.ReadyToCommit` | dos/exec_transaction.c:4031-4098 | with the PSP in place clear of other tables, the live processes' tables are as before and everything a commit asks of memory holds |
| `Relocator.ItemStatus` | dos/relocator.c:117-146 | accepts an entry exactly if its word lies in the resident image and in memory |
| `Relocator.GoodMeaning` | dos/relocator.c:117-146 | an entry is good exactly if its first word is not FFFFh and the address named by its words, the second one and the factor making the segment modulo 64 Ki, lies in the image and in memory |
| `Relocator.RelocatedMeaning` | dos/relocator.c:191-217 | each entry in turn makes the word at its address larger by the factor, modulo 64 Ki, and changes nothing else |
| `Relocator.RequestMeaning` | dos/relocator.c:50-93 | which requests are refused before a byte is read, the file's fault before the image's |
| `Relocator.ValidateAll` | dos/relocator.c:148-189 | all entries are looked at before a byte is written |
| `Relocator.RelocateWord` | dos/relocator.c:191-217 | adds the factor to one word without carry, all or nothing |
| `Relocator.ApplyAll` | dos/relocator.c:219-268 | applies the entries in table order and writes only inside the resident image |
| `Relocator.Apply` | dos/relocator.c:270-294 | equals the fold of wrapping adds over the table, duplicates and overlaps included; one bad entry means nothing is written; all writes stay in the resident image |
| `MzLoad.ChunkParagraphs` | dos/image_load.c:219-224 | reads never exceed the threshold and never leave a rest below a page |
| `MzLoad.SourceFileBytes` | dos/image_load.c:226-256 | the per-read rule accepts exactly when the whole image falls short by less than 512 bytes, and then counts all the file has |
| `MzLoad.CopyExact` | dos/image_load.c:375-416 | file bytes arrive at consecutive linear addresses, and nothing outside the target changes |
| `MzLoad.PreflightTarget` | dos/image_load.c:327-347 | accepts exactly a target that lies in memory below one megabyte |
| `MzLoad.LoadMzResident` | dos/image_load.c:468-539 | accepted exactly in a usable block, inside it, where the plan belongs and short by less than 512 bytes; then exactly the smaller of file and image arrives; nothing outside the image's place ever changes |
| `MzLoad.LoadComResident` | dos/image_load.c:429-466 | accepted exactly in a usable block with room for more than the file; then the whole file lies behind the PSP; nothing outside that room ever changes |
| `MzLoad.PlanOf` | dos/process.c:1067-1087 | an image that fits has exactly one place the loader accepts |
| `MzLoad.PlacedMeaning` | dos/process.c:1067-1078 | a high image ends with its block, a low one begins sixteen paragraphs into it |
| `MzLoad.PlannableMeaning` | dos/image_load.c:39-142 | which programs can be laid out in a block, in numbers |
| `MzLoad.LoadImage` | dos/exec_transaction.c:3515-3524 | on success the file's bytes lie where the image belongs, the addresses written out; in any case nothing outside the block has changed; without faults succeeds if block and file are there |
| `InterruptReflection.FlagsReturn` | dos/control_instruction.c:75-82 | popping saved flags gives them back with bit one set |
| `InterruptReflection.FlagsWordIs` | dos/interrupt_reflection.c:87-95 | the pushed flags are bits 0 to 15, each with its weight |
| `InterruptReflection.PopMeaning` | dos/control_instruction.c:75-82 | a pop takes bits 0, 2, 4 and 6 to 14, sets bit 1 and keeps the rest |
| `InterruptReflection.FrameMeaning` | dos/interrupt_reflection.c:84-95 | the frame is IP, CS and FLAGS, low bytes first |
| `InterruptReflection.VectoredMeaning` | dos/interrupt_reflection.c:107-122 | a handler is entered at the vector's CS:IP with SP six lower modulo 64 Ki and bits 8 and 9 of the flags clear, and nothing else changed |
| `InterruptReflection.ReturnedMeaning` | dos/control_instruction.c:162-186 | IRET takes IP, CS and FLAGS from the frame and adds six to SP modulo 64 Ki |
| `InterruptReflection.ReturnUndoes` | dos/control_instruction.c:162-186 | IRET through an interrupt's frame gives back CS, IP, SP and flags, whatever the handler did to CS:IP, other registers and writable flags |
| `InterruptReflection.Reflect` | dos/interrupt_reflection.c:57-123 | pushes the frame below SS:SP with wrap and enters the vector's handler, or leaves memory alone unless the machine's undo fails |
| `InterruptReflection.Rollback` | dos/interrupt_reflection.c:125-138 | writes the displaced bytes back, all or nothing unless the undo fails |
| `InterruptReflection.RollbackUndoes` | dos/interrupt_reflection.c:125-138 | a rolled-back reflection leaves no trace in memory |
| `InterruptReflection.Iret` | dos/control_instruction.c:162-186 | pops the frame at SS:SP with wrap, and faults only with the machine |
| `InterruptReflection.RunKeepsFrames` | dos/interrupt_reflection.c:57-123 | a program that is interrupted any number of times, to any depth the segment holds, keeps every live frame |
| `InterruptReflection.InterruptReturns` | dos/control_instruction.c:162-186 | a handler that computes and is itself interrupted arbitrarily returns to the interrupted CS, IP, SP and flags, bit one set |
| `InterruptReflection.NestingLimit` | dos/interrupt_reflection.c:57-123 | up to 10922 nested interrupts followed by as many IRETs restore every register, SP wrap included, flags up to bit one |
| `DosPath.ChopPops` | dos/path.c:21-34 | dropping the last component of a canonical path's text pops the stack |
| `DosPath.ResolveAgrees` | dos/path.c:61-136 | canonicalising against a canonical current path is printing the stack of pushed and popped components |
| `DosPath.StepMeaning` | dos/path.c:36-59 | one component: nothing and `.` stay, `..` chops, anything else is appended in capitals unless that makes 68 bytes or it holds a control character or a colon |
| `DosPath.FieldsMeaning` | dos/path.c:61-136 | components end at each slash and backslash and nowhere else |
| `DosPath.FieldsOfPrint` | dos/path.c:61-136 | a canonical path splits into its components again, so it has no dot, empty or doubled ones |
| `DosPath.PrintShape` | dos/path.c:61-136 | canonical paths begin with the bytes of `C:\` and hold no byte from 61h to 7Ah, no slash and no NUL |
| `DosPath.CanonicalIsFixed` | dos/path.c:61-136 | canonicalising a canonical path returns it, whatever the current path |
| `PathCanonicalize.RemoveLast` | dos/path.c:21-34 | the buffer loop chops the last component, resetting a root to `C:\` |
| `PathCanonicalize.AppendComponent` | dos/path.c:36-59 | appends the upper-cased component with its separator, or reports length before characters |
| `PathCanonicalize.TakeComponents` | dos/path.c:61-136 | the component loop equals a walk over the separator-delimited fields |
| `PathCanonicalize.Canonicalize` | dos/path.c:61-136 | for every current path and input, the output holds the resolved text with its terminator, or the status says why it is untouched |
| `PathCanonicalize.CurrentOfCanonical` | dos/path.c:61-136 | a buffer holding a canonical path is accepted as current directory |
| `PathCanonicalize.CanonicalPaths` | dos/path.c:61-136 | with a canonical current path the result is the printed stack, canonical, acceptable as the next current path and unchanged by another pass |

## Left out

- MemoryArena.Arena.Resize: stated for the chain's own blocks; `ArenaStray.ResizeStray` covers every other paragraph.
- ExecTransaction.Launch.Abort: journalled bytes inside memory that was free at begin return to their value before the journal, not to begin's.
- ExecTransaction.Launch.SealExecute: what the arena chain looks like after publication is not claimed, because staged stack words and interrupt vectors may be written anywhere.
- ExecTransaction.Launch.Begin: launches begin on an arena that still holds its chain; a chain destroyed by a guest program is not followed.
- ExecTransaction.Launch.OpenFile: the executable's file lease is reduced to its states and to answers the file system may give.
- ExecTransaction.Launch.PrepareEnvironment: the strings copied into the environment block are arbitrary bytes.
- ExecTransaction.Launch.PrepareTarget: the sizes an image header asks for arrive as a block size and whether it fits.
- ExecTransaction.Launch.StageProcessMemory: the PSP image is any 256 bytes and the stack words any patches; `PspBuild.PreparePsp` says what the image holds.
- ExecTransaction.Launch.StageGlobalMemory: the words a load-only launch returns to its caller are any patches.
- ExecTransaction.Launch.Drive: one launch slot at a time; retiring a published launch is not among the calls, because the next launch would begin on memory a guest program has run in.
- BackendSession.Sessions.RunUntilEvent: what the running guest does to memory and registers is outside the model.
- FileWorld.Files.CommitInheritance: refuses a PSP without the child's table, which the batch commit itself does not look at.
- FileWorld.Files.TerminateProcess: models the handle closing of termination; vectors, memory release and the return to the parent are not part of it.
- InterruptReflection.Reflect: registers beyond CS, IP, SP, SS and EFLAGS are one unchanged value.
- Callbacks that re-enter the kernel, and guest programs that overwrite MCB headers or job file tables between calls.
- Native pointer, overlap, NULL, reserved-byte and struct-layout checks, and the "-ING" transient states of dos/exec_transaction.c, which no call leaves behind.
- Overlay loading: it places an image where the caller says, holds no lease and starts no process, so nothing here is kept or given back by it.
- Environment construction, executable names, parameter blocks and COM stack preparation: their results reach the launch as the bytes and patches above.
- SFT position, size, date fields and update_io; port input and output of the machine adapter.
- PUSHF and POPF emulation, protected mode, and interrupt sources other than reflection.
- The rest of INT 21h (console, directory, find, country services), the command shell and the user interface.

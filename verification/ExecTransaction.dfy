/** One EXEC launch from begin to publication or abort. */
module ExecTransaction {
  import opened GuestMemory
  import opened GuestMachine
  import opened ExecJournal
  import opened McbChain
  import opened McbBytes
  import opened McbBlocks
  import opened McbMeaning
  import opened McbSurvey
  import opened McbSplit
  import opened MemoryArena
  import opened LeaseSlots
  import opened MemoryLease
  import opened SftCounts
  import opened SftRegistry
  import opened SftBatch
  import opened ExecObserver
  import opened ProcessRuntime
  import opened ExecSeal
  import opened BackendSession
  import opened ExecMemory
  import opened ExecState
  import opened ExecSlot
  import opened ExecPatch
  import opened ImageFile
  import opened MzLoad
  import Relocator

  datatype LaunchStatus =
    | LaunchOk
    | LaunchInvalidArgument
    | LaunchInvalidState
    | LaunchBusy
    | LaunchFault
    | BadImage
    | NoRuntime
    | RuntimeChanged
    | NotEnough
    | Unavailable
    | Retained
    | PublicationNotReady
    | BackendIsPoisoned
    | LaunchIsPoisoned

  const NO_LEASE_SLOT := LeaseSlot(0, Vacant, NO_ARENA, 0, 0, 0)

  // ---------- the executable file ----------

  datatype FileState = FileVacant | FileOpened | FileShut

  datatype FileAnswer = FileDone | FileRefused | FileKept | FileUnclear

  /** The one file lease of a launch; what the file system answers is arbitrary. */
  class ExecFile {
    var state: FileState
    /** Opens and closes the file system refused so far. */
    ghost var failures: nat

    constructor ()
      ensures state == FileVacant
    {
      state, failures := FileVacant, 0;
    }

    method Acquire() returns (answer: FileAnswer)
      requires state == FileVacant
      modifies this
      ensures answer == FileDone ==> state == FileOpened
      ensures answer != FileDone ==> state == FileVacant && failures > old(failures)
      ensures failures >= old(failures)
    {
      answer := *;
      if answer == FileDone { state := FileOpened; } else { failures := failures + 1; }
    }

    method Close() returns (answer: FileAnswer)
      modifies this
      ensures answer == FileDone ==> state == FileShut
      ensures answer != FileDone ==> state == old(state)
      ensures answer == FileDone || old(state) == FileVacant || failures > old(failures)
      ensures old(state) == FileVacant ==> answer == FileRefused && failures == old(failures)
      ensures old(state) == FileShut ==> answer == FileDone && failures == old(failures)
      ensures failures >= old(failures)
    {
      if state == FileShut { return FileDone; }
      if state == FileVacant { return FileRefused; }
      answer := *;
      if answer == FileDone { state := FileShut; } else { failures := failures + 1; }
    }

    method Retire() returns (answer: FileAnswer)
      modifies this
      ensures answer == FileDone <==> old(state) == FileShut
      ensures state == (if answer == FileDone then FileVacant else old(state)) && failures == old(failures)
    {
      if state != FileShut { return FileRefused; }
      state := FileVacant;
      return FileDone;
    }
  }

  // ---------- what was true when a session became runnable ----------

  datatype LaunchRecord = LaunchRecord(journal: JournalState, hasEnvironment: bool, environment: LeaseSlot, load: LeaseSlot,
                                       batch: BatchState, currentPsp: u16, childPsp: u16)
  {
    /** Memory sealed, both blocks with the child, files inherited, child current. */
    predicate Complete() {
      && journal == Sealed && load.state == Published && load.owner == childPsp && batch == Committed && currentPsp == childPsp
      && (hasEnvironment ==> environment.state == Published && environment.owner == childPsp)
    }
  }

  class LaunchLog {
    ghost var records: map<SessionKey, LaunchRecord>

    constructor ()
      ensures records == map[]
    {
      records := map[];
    }

    /** The session was published by a complete launch of its own child. */
    ghost predicate Launched(sessions: Sessions, k: SessionKey) reads this, sessions {
      && k in records && records[k].Complete()
      && k in sessions.published && records[k].childPsp == sessions.published[k].childPsp
    }

    ghost predicate Valid(sessions: Sessions) reads this, sessions {
      forall k :: k in sessions.published ==> Launched(sessions, k)
    }

    /** Every session the run callback was ever invoked for was so launched. */
    lemma {:induction false} RanAfterLaunch(sessions: Sessions, k: SessionKey)
      requires sessions.Valid() && Valid(sessions) && k in sessions.ran
      ensures Launched(sessions, k)
    {
    }
  }

  lemma {:induction false} HeldWith(environment: Lease, target: Lease, lease: Lease, owner: nat)
    requires lease.Leased?
    ensures environment == NoLease ==>
      HeldBlocks(lease, target, owner) 
        == HeldBlocks(environment, target, owner) + {BlockHeld(lease.guest, lease.paragraphs, owner)}
    ensures target == NoLease ==>
      HeldBlocks(environment, lease, owner) 
        == HeldBlocks(environment, target, owner) + {BlockHeld(lease.guest, lease.paragraphs, owner)}
  {
  }

  lemma {:induction false} HeldWithout(slots: seq<LeaseSlot>, identity: nat, key: ArenaKey, other: Lease, lease: Lease,
                                       owner: u16, blocks: seq<Block>)
    requires LeasesHeld(slots, identity, key, other, lease, owner) && lease.Leased? && Held(slots, key, blocks)
    ensures BlockHeld(lease.guest, lease.paragraphs, owner) in HeldBlocks(other, lease, owner)
    ensures HeldBlocks(other, lease, owner) - {BlockHeld(lease.guest, lease.paragraphs, owner)}
         == HeldBlocks(other, NoLease, owner)
  {
    hide LeasesHeld, Held;
    if other.Leased? { LeaseBlocksDiffer(slots, identity, key, other, lease, owner, blocks); }
  }

  lemma {:induction false} LeaseFresh(slots: seq<LeaseSlot>, identity: nat, key: ArenaKey, lease: Lease, owner: u16)
    requires lease.Leased? && owner != 0
    requires var d := DecodeHandle(lease.handle);
      && d.Named? && d.identity == identity && d.slot < |slots|
      && slots[d.slot] == LeaseSlot(d.generation, Active, key, lease.guest, owner, lease.paragraphs)
    ensures LeaseHeld(slots, identity, key, lease, owner)
  {
    hide DecodeHandle;
  }

  /** Whatever was written lies in the paragraphs of a leased block. */
  lemma {:induction false} ConfinedToLease(m: Memory, m': Memory, view: LeaseView, owner: nat)
    requires Confined(m, m', PARAGRAPH * view.guest, PARAGRAPH * view.paragraphs) && view.guest > 0
    ensures SameOutsideData(m, m', BlockHeld(view.guest, view.paragraphs, owner))
  {
  }

  lemma {:induction false} RelocatedInLease(m: Memory, m': Memory, request: Relocator.Request, view: LeaseView, owner: nat)
    requires Relocator.Inside(m, m', request) && view.Covers(request.resident, request.size) && view.guest > 0
    ensures SameOutsideData(m, m', BlockHeld(view.guest, view.paragraphs, owner))
  {
  }

  /** The record of an image: a high one ends with its block, any other begins
      right behind the PSP. */
  ghost predicate ResidentAt(image: Image, view: LeaseView, resident: Resident) {
    match image
    case ComImage => resident == ComResident
    case MzImage(_, size, high, _) =>
      && resident.MzResident? && resident.paragraphs == size
      && (if high then resident.segment + size == view.guest + view.paragraphs else resident.segment == view.guest + 16)
  }

  /** An image laid out in the load block is where the record says. */
  lemma {:induction false} LoadedCoherent(s: LaunchSlot, image: Image)
    requires Shaped(s) && s.state == TargetReady && s.target.Leased?
    requires Plannable(image, LeaseView(s.target.guest, s.target.paragraphs), 1) || image.ComImage?
    ensures var view := LeaseView(s.target.guest, s.target.paragraphs);
      Coherent(s.(resident := if image.ComImage? then ComResident else MzResident(PlanOf(image, view).segment, image.resident)))
  {
    hide Encoded;
  }

  lemma {:induction false} PlansMatch(s: LaunchSlot, rebinds: Rebinds)
    requires rebinds.Rebinds? && s.target.Leased? && PlanMatches(s, rebinds.load, s.target)
    requires s.environment.Leased? <==> rebinds.environment.WithEnvironment?
    requires s.environment.Leased? ==> PlanMatches(s, rebinds.environment.rebind, s.environment)
    ensures RebindsMatch(s.(rebinds := rebinds))
  {
  }

  lemma {:induction false} HandleBelow(handle: u64)
    requires DecodeHandle(handle).Named?
    ensures 0 < handle != NO_HANDLE
  {
  }

  lemma {:induction false} BatchHandleBelow(handle: nat)
    requires 1 <= BatchHandleSlot(handle) <= BATCH_SLOTS && 0 < BatchHandleGeneration(handle) <= BATCH_GENERATION_MAX
    ensures 0 < handle != NO_HANDLE
  {
  }

  lemma {:induction false} MaximumUnique(blocks: seq<Block>, a: nat, b: nat)
    requires IsMaximum(blocks, a) && IsMaximum(blocks, b)
    ensures a == b
  {
  }

  lemma {:induction false} SpaceBelowMaximum(blocks: seq<Block>, paragraphs: nat, maximum: nat)
    requires IsMaximum(Merge(blocks), maximum)
    ensures (exists j: nat :: Candidate(Merge(blocks), j, paragraphs)) ==> paragraphs <= maximum
  {
    hide Merge;
  }

  lemma {:induction false} PspNeedsFour()
    ensures RecordsNeeded(256) == 4
  {
    assert RecordsNeeded(64) == 1 && RecordsNeeded(128) == 2 && RecordsNeeded(192) == 3;
  }

  /** The child has this block for good. */
  ghost predicate ChildHolds(slots: seq<LeaseSlot>, lease: Lease, child: u16) {
    lease.Leased? ==>
      var d := DecodeHandle(lease.handle);
      && d.Named? && d.slot < |slots| && slots[d.slot].state == Published && slots[d.slot].owner == child
      && slots[d.slot].guest == lease.guest && slots[d.slot].paragraphs == lease.paragraphs
  }

  /** What giving up answers if neither machine nor file system fails. */
  function AbortOutcome(slot: LaunchSlot, sessionsPoisoned: bool, release: ReleaseAnswer): (status: LaunchStatus) {
    if Stuck(slot) then LaunchInvalidState
    else if !slot.hasSession then LaunchOk
    else if sessionsPoisoned then BackendIsPoisoned
    else match release
      case LetGo => LaunchOk
      case HeldOn => Retained
      case BadRelease => BackendIsPoisoned
  }

  /** The calls that take a launch forward. */
  datatype Step =
    | OpenStep
    | ReadStep(psp: PspImage, outcome: LaunchStatus)
    | EnvironmentStep(wanted: bool, paragraphs: u16, built: LaunchStatus)
    | TargetStep(blockParagraphs: u16, fits: bool)
    | LoadStep(image: Image)
    | RelocateStep(table: nat, count: nat)
    | CloseStep
    | InheritStep(jft: seq<byte>)
    | ProcessMemoryStep(words: seq<Patch>)
    | GlobalMemoryStep(name: seq<byte>, result: seq<Patch>)
    | HandoffStep(entry: nat, stack: seq<Patch>)
    | BackendStep(prepare: PrepareAnswer)
    | SealStep
    | RunStep(handle: nat, run: RunAnswer)

  /** All calls of the coordinator and of the execution loop. */
  datatype Call = BeginCall(mode: Mode) | StepCall(step: Step) | AbortCall(release: ReleaseAnswer) | RetireCall

  class Launch {
    const arena: Arena
    const leases: LeaseTable
    const registry: Registry
    const batches: BatchTable
    const runtime: Runtime
    const gate: Gate
    const gateContext: nat
    const machineIdentity: nat
    const sessions: Sessions
    const log: LaunchLog
    const journal: Journal
    const observer: Observer
    const seal: SealServices
    const file: ExecFile
    const reader: ImageReader
    const binding: Binding

    var slot: LaunchSlot
    ghost var start: Start

    ghost predicate Objects()
      reads this, arena, arena.machine, leases, registry, batches, runtime, gate, sessions, log, journal
    {
      && arena.machine.Valid() && leases.Valid() && registry.Valid() && batches.Valid() && runtime.Valid() && gate.Valid()
      && sessions.Valid() && journal.Valid() && log.Valid(sessions)
      && seal.observer == observer && seal.gate == gate && seal.observerContext == gateContext && seal.journal == journal
      && seal.machineIdentity == machineIdentity && seal.leases == leases && seal.arena == arena && seal.batches == batches
      && seal.runtime == runtime
    }

    /** Everything the launch holds is accounted for, if these are its leases. */
    ghost predicate AccountedFor(environment: Lease, target: Lease)
      reads this, arena, arena.machine, leases, registry, batches, runtime, gate, journal, observer, file
    {
      && arena.Ready() == MemoryOk && ArenaUsable(arena) && arena.Sound()
      && journal.Bound(arena.machine) && journal.identity == machineIdentity && journal.state in {Staging, Aborted}
      && (Unjournalled(slot.state) ==> journal.records == [] && journal.state == Staging)
      && MemorySound(start, arena.machine.mem, journal.records, journal.a20, arena.head, arena.end, arena.blocks,
                     HeldBlocks(environment, target, slot.parent.currentPsp))
      && Held(leases.slots, KeyOf(arena), arena.blocks)
      && LeasesHeld(leases.slots, leases.identity, KeyOf(arena), environment, target, slot.parent.currentPsp)
      && FilesSound(start, registry.slots, batches.slots, registry.context, registry.identity, slot.hasBatch, slot.batch)
      && registry.identity != NO_BACKEND && registry.context != NO_BACKEND
      && runtime.Now() == start.runtime == slot.parent && runtime.ReadyStatus() == RuntimeOk
      && observer.ValidateHeld(gate, gateContext) == ObserverOk && (gate.exclusive ==> observer.Owns(gate))
      && (if slot.hasFile then file.state in {FileOpened, FileShut} else file.state == FileVacant)
      && slot.arena == KeyOf(arena) && (slot.rebinds.Rebinds? || slot.state == GlobalStaged ==> journal.state == Staging)
    }

    ghost predicate Accounted()
      reads this, arena, arena.machine, leases, registry, batches, runtime, gate, journal, observer, file
    {
      AccountedFor(slot.environment, slot.target)
    }

    /** The session answers to its handle and waits for the publication. */
    ghost predicate Waits(handle: nat, handoff: Handoff) reads sessions {
      && sessions.Valid()
      && (sessions.poisoned ||
          var found := sessions.FindBound(handle, binding);
          && found.status == SessionOk && sessions.slots[found.index].state == Dormant
          && sessions.slots[found.index].handoff == handoff && sessions.slots[found.index].binding == binding)
    }

    ghost predicate Valid()
      reads this, arena, arena.machine, leases, registry, batches, runtime, gate, sessions, log, journal, observer, file
    {
      && Objects() && Shaped(slot)
      && (InPreparation(slot.state) ==> Accounted() && (slot.hasSession ==> Waits(slot.session, slot.handoff)))
      && (slot.state == NotBegun ==> journal.state == Uninitialized && observer.state == ObserverIdle)
      && (slot.state in {NotBegun, LaunchAborted} ==> leases.Holds(arena) && file.state == FileVacant)
    }

    constructor (arena: Arena, leases: LeaseTable, registry: Registry, batches: BatchTable, runtime: Runtime, gate: Gate,
                 gateContext: nat, machineIdentity: nat, sessions: Sessions, log: LaunchLog, reader: ImageReader,
                 binding: Binding)
      requires leases.Holds(arena) && leases.Valid() && registry.Valid() && batches.Valid() && runtime.Valid() && gate.Valid()
      requires sessions.Valid() && log.Valid(sessions)
      ensures Valid() && slot.state == NotBegun && fresh(journal) && fresh(observer) && fresh(file) && fresh(seal)
      ensures this.arena == arena && this.leases == leases && this.registry == registry && this.batches == batches
      ensures this.runtime == runtime && this.gate == gate && this.sessions == sessions && this.log == log
      ensures this.reader == reader && this.binding == binding
    {
      hide LeaseTable.Valid, Registry.Valid, BatchTable.Valid, Runtime.Valid, Gate.Valid, Sessions.Valid, LaunchLog.Valid,
        Machine.Valid, Launch.AccountedFor, Launch.Waits, Held, Arena.Sound;
      var j := new Journal();
      var o := new Observer();
      var f := new ExecFile();
      var s := new SealServices(o, gate, gateContext, j, machineIdentity, leases, arena, batches, runtime);
      this.arena, this.leases, this.registry, this.batches := arena, leases, registry, batches;
      this.runtime, this.gate, this.gateContext, this.machineIdentity := runtime, gate, gateContext, machineIdentity;
      this.sessions, this.log, journal, observer, seal, file := sessions, log, j, o, s, f;
      this.reader, this.binding := reader, binding;
      slot := EmptySlot();
    }

    // ---------- giving up for good ----------

    method Poison(memoryToo: bool) returns (status: LaunchStatus)
      requires Objects()
      modifies this`slot, arena`poisoned, observer`state, gate`held, gate`quarantined
      ensures Valid() && slot == old(slot).(state := LaunchPoisoned) && status == LaunchIsPoisoned
      ensures arena.poisoned == (old(arena.poisoned) || memoryToo)
    {
      hide LeaseTable.Valid, Registry.Valid, BatchTable.Valid, Runtime.Valid, Gate.Valid, Sessions.Valid, Journal.Valid,
        Journal.Bound, LaunchLog.Valid, Machine.Valid, Arena.Sound, MemorySound, Held, LeasesHeld, FilesSound, HeldBlocks;
      if memoryToo { arena.poisoned := true; }
      slot := slot.(state := LaunchPoisoned);
      if observer.state == ObserverHeld { observer.Poison(gate, gateContext); }
      return LaunchIsPoisoned;
    }

    // ---------- begin ----------

    /** Inside the interval: bind the journal and remember the parent. */
    method Observe(mode: Mode)
      requires Objects() && slot == EmptySlot() && journal.state == Uninitialized && file.state == FileVacant
      requires observer.ValidateHeld(gate, gateContext) == ObserverOk && (gate.exclusive ==> observer.Owns(gate))
      requires arena.Ready() == MemoryOk && ArenaUsable(arena) && leases.Holds(arena)
      requires registry.identity != NO_BACKEND && registry.context != NO_BACKEND && runtime.ReadyStatus() == RuntimeOk
      modifies this, journal
      ensures Valid() && slot.state == Observed && slot.mode == mode
      ensures start == Start(arena.machine.mem, arena.blocks, registry.slots, runtime.Now())
    {
      hide LeaseTable.Valid, Registry.Valid, BatchTable.Valid, Runtime.Valid, Gate.Valid, Sessions.Valid, Journal.Valid,
        Journal.Bound, Journal.Base, LaunchLog.Valid, Machine.Valid, Arena.Sound, MemorySound, Held, LeasesHeld,
        HeldBlocks, IsChain, DropAll, Closings, Covered, EntriesName, Shaped, Launch.Waits;
      Observes(mode, runtime.Now(), KeyOf(arena));
      var ready := journal.Initialize(machineIdentity, arena.machine);
      if ready != JournalOk { assert false; }
      start := Start(arena.machine.mem, arena.blocks, registry.slots, runtime.Now());
      MemoryStarts(arena.machine.mem, journal.a20, arena.head, arena.end, arena.blocks, registry.slots, runtime.Now());
      NoLeases(leases.slots, leases.identity, KeyOf(arena), runtime.currentPsp);
      slot := EmptySlot().(state := Observed, mode := mode, parent := runtime.Now(), arena := KeyOf(arena));
    }

    /** The runtime cannot be read: leave the interval again. */
    method Withdraw() returns (status: LaunchStatus)
      requires Objects() && slot == EmptySlot() && journal.state == Uninitialized && file.state == FileVacant
      requires observer.state == ObserverHeld && leases.Holds(arena)
      modifies this`slot, arena`poisoned, observer, gate`held, gate`quarantined
      ensures Valid() && status in {NoRuntime, LaunchIsPoisoned}
      ensures status == NoRuntime ==> slot == EmptySlot() && gate.quarantined == old(gate.quarantined)
      ensures gate.exclusive && old(observer.Owns(gate)) && old(observer.ValidateHeld(gate, gateContext)) == ObserverOk ==>
        status == if runtime.ReadyStatus() == RuntimeIsPoisoned then LaunchIsPoisoned else NoRuntime
    {
      hide LeaseTable.Valid, Registry.Valid, BatchTable.Valid, Runtime.Valid, Gate.Valid, Sessions.Valid, Journal.Valid,
        LaunchLog.Valid, Machine.Valid, Launch.AccountedFor;
      if runtime.ReadyStatus() != RuntimeIsPoisoned {
        var released := observer.Release(gate, gateContext);
        if released == ObserverOk {
          observer.Construct();
          return NoRuntime;
        }
      }
      status := Poison(false);
    }

    /** Nobody holds the interval, and it can still be given out. */
    ghost predicate GateFree() reads gate {
      && 0 < gate.identity != 0xffff_ffff_ffff_ffff && gateContext == gate.context != 0xffff_ffff_ffff_ffff
      && !gate.quarantined && gate.held == 0 && gate.generation < 0xffff_ffff_ffff_ffff
    }

    /** Take the interval and remember the parent. */
    method Begin(mode: Mode) returns (status: LaunchStatus)
      requires Valid()
      modifies this, observer, gate, journal, arena`poisoned
      ensures Valid()
      ensures status == LaunchOk ==>
        && slot.state == Observed && slot.mode == mode
        && start == Start(arena.machine.mem, arena.blocks, registry.slots, runtime.Now())
      ensures status == LaunchOk ==> runtime.ReadyStatus() == RuntimeOk
      ensures status != LaunchOk && status != LaunchIsPoisoned ==> slot == old(slot)
      ensures old(slot.state) != NotBegun ==>
        && unchanged(this)
        && (old(slot.state) == LaunchPoisoned ==> status == LaunchIsPoisoned)
        && (old(Stuck(slot)) ==> status == LaunchInvalidState) && status != LaunchOk
      ensures gate.exclusive ==>
        (status == LaunchOk <==>
           && old(slot.state) == NotBegun && ArenaUsable(arena) && !old(arena.poisoned)
           && registry.identity != NO_BACKEND && registry.context != NO_BACKEND && runtime.initialized && !runtime.poisoned
           && old(GateFree()))
    {
      hide LeaseTable.Valid, Registry.Valid, BatchTable.Valid, Runtime.Valid, Gate.Valid, Sessions.Valid, Journal.Valid,
        LaunchLog.Valid, Machine.Valid, Arena.Sound, Held, IsChain, Launch.AccountedFor;
      if slot.state == LaunchPoisoned { return LaunchIsPoisoned; }
      RefusedExactly(slot);
      if !Encoded(slot) { return LaunchInvalidState; }
      if !ArenaUsable(arena) || registry.identity == NO_BACKEND || registry.context == NO_BACKEND {
        return LaunchInvalidArgument;
      }
      if arena.poisoned { return LaunchIsPoisoned; }
      if slot.state != NotBegun { return Unavailable; }
      var held := observer.Acquire(gate, gateContext);
      if held == ObserverIsPoisoned {
        slot := slot.(state := LaunchPoisoned);
        return LaunchIsPoisoned;
      }
      if held != ObserverOk {
        return if held == ObserverBusy then LaunchBusy else LaunchFault;
      }
      if runtime.ReadyStatus() != RuntimeOk {
        status := Withdraw();
        return;
      }
      Observe(mode);
      return LaunchOk;
    }

    // ---------- steps that hold no new resource ----------

    /** Note plans and progress; no resource changes hands. */
    method Note(next: LaunchSlot)
      requires Objects() && Accounted() && InPreparation(next.state)
      requires Unjournalled(next.state) ==> Unjournalled(slot.state)
      requires next.rebinds.Rebinds? || next.state == GlobalStaged ==> journal.state == Staging
      requires next == slot.(state := next.state, resident := next.resident, psp := next.psp, rebinds := next.rebinds,
                             hasHandoff := next.hasHandoff, handoff := next.handoff, hasSession := next.hasSession,
                             session := next.session)
      modifies this`slot
      ensures Objects() && Accounted() && slot == next
    {
      hide LeaseTable.Valid, Registry.Valid, BatchTable.Valid, Runtime.Valid, Gate.Valid, Sessions.Valid, Journal.Valid,
        Journal.Bound, LaunchLog.Valid, Machine.Valid, Arena.Sound, MemorySound, Held, LeasesHeld, FilesSound, HeldBlocks,
        Shaped;
      slot := next;
    }

    /** The same, ending in a record that the next call accepts. */
    method Keep(next: LaunchSlot)
      requires Objects() && Accounted() && InPreparation(next.state) && Shaped(next) && !next.hasSession
      requires Unjournalled(next.state) ==> Unjournalled(slot.state)
      requires next.rebinds.Rebinds? || next.state == GlobalStaged ==> journal.state == Staging
      requires next == slot.(state := next.state, resident := next.resident, psp := next.psp, rebinds := next.rebinds,
                             hasHandoff := next.hasHandoff, handoff := next.handoff, hasSession := next.hasSession,
                             session := next.session)
      modifies this`slot
      ensures Valid() && slot == next
    {
      hide Launch.Objects, Launch.AccountedFor, Shaped;
      Note(next);
    }

    method Move(next: LaunchState)
      requires Objects() && Accounted() && InPreparation(next) && Shaped(slot.(state := next)) && !slot.hasSession
      requires Unjournalled(next) ==> Unjournalled(slot.state)
      requires next == GlobalStaged ==> journal.state == Staging
      modifies this`slot
      ensures Valid() && slot == old(slot).(state := next)
    {
      hide Launch.Objects, Shaped, LeaseTable.Valid, Registry.Valid, BatchTable.Valid, Runtime.Valid, Gate.Valid,
        Sessions.Valid, Journal.Valid, Journal.Bound, LaunchLog.Valid, Machine.Valid, Arena.Sound, MemorySound, Held,
        LeasesHeld, FilesSound, HeldBlocks;
      Keep(slot.(state := next));
    }

    method Fail()
      requires Objects() && Accounted() && Shaped(slot) && Unplanned(slot.state)
      modifies this`slot
      ensures Valid() && slot == old(slot).(state := LaunchFailed)
    {
      hide Launch.Objects, Launch.AccountedFor, Shaped;
      UnplannedHoldsLittle(slot);
      Fails(slot);
      Move(LaunchFailed);
    }

    /** Probe the file, read the parameters, inspect the image, snapshot the
        parent, build the PSP image, resolve the drives: these read the guest
        and the file and only decide whether to go on. */
    method ReadingStep(psp: PspImage, outcome: LaunchStatus) returns (status: LaunchStatus)
      requires Valid()
      modifies this`slot, arena`poisoned, observer`state, gate`held, gate`quarantined
      ensures Valid()
      ensures status == LaunchOk ==>
        && ReadOn(old(slot.state), slot.state)
        && slot == old(slot).(state := slot.state, psp := if slot.state == PspPrepared then psp else old(slot.psp))
      ensures !Reading(old(slot.state)) ==> status == LaunchInvalidState && slot == old(slot)
      ensures Reading(old(slot.state)) ==>
        var stands := old(slot.state) in {FileOpen, PspPrepared} || runtime.generation < 0xffff_ffff_ffff_ffff;
        && (status == LaunchOk <==> stands && outcome == LaunchOk)
        && (status != LaunchOk ==>
              slot == old(slot).(state := if stands && outcome == LaunchIsPoisoned then LaunchPoisoned else LaunchFailed))
    {
      hide Launch.Objects, Launch.AccountedFor, Shaped, Launch.Waits, LeaseTable.Holds;
      var next := ReadingNext(slot.state);
      if next == slot.state { return LaunchInvalidState; }
      Reads(slot, if next == PspPrepared then psp else slot.psp);
      RuntimeStands();
      if slot.state !in {FileOpen, PspPrepared} && runtime.PreflightExec(slot.parent) != RuntimeOk {
        Fail();
        return RuntimeChanged;
      }
      if outcome == LaunchIsPoisoned {
        var memoryToo: bool := *;
        status := Poison(memoryToo);
        return;
      }
      if outcome != LaunchOk {
        Fail();
        return LaunchFault;
      }
      Onward(next, if next == PspPrepared then psp else slot.psp);
      return LaunchOk;
    }

    /** Go on to the next state with this PSP. */
    method Onward(next: LaunchState, psp: PspImage)
      requires Valid() && Unjournalled(slot.state) && Unjournalled(next) && Shaped(slot.(state := next, psp := psp))
      modifies this`slot
      ensures Valid() && slot == old(slot).(state := next, psp := psp)
    {
      hide Launch.Objects, Launch.AccountedFor, Shaped, Launch.Waits, LeaseTable.Holds;
      UnplannedHoldsLittle(slot);
      Keep(slot.(state := next, psp := psp));
    }

    method OpenFile() returns (status: LaunchStatus)
      requires Valid()
      modifies this`slot, file, arena`poisoned, observer`state, gate`held, gate`quarantined
      ensures Valid()
      ensures status == LaunchOk ==> slot == old(slot).(state := FileOpen, hasFile := true) && file.state == FileOpened
      ensures status == LaunchFault ==> slot == old(slot).(state := LaunchFailed)
      ensures old(slot.state) != Observed ==> status == LaunchInvalidState && slot == old(slot)
      ensures old(slot.state) == Observed ==> status == LaunchOk || file.failures > old(file.failures)
    {
      hide LeaseTable.Valid, Registry.Valid, BatchTable.Valid, Runtime.Valid, Gate.Valid, Sessions.Valid, Journal.Valid,
        Journal.Bound, LaunchLog.Valid, Machine.Valid, Arena.Sound, MemorySound, Held, LeasesHeld, FilesSound, HeldBlocks,
        Shaped, Launch.Waits;
      if slot.state == Observed {
        UnplannedHoldsLittle(slot);
        Opens(slot);
      }
      if slot.state != Observed || slot.hasFile { return LaunchInvalidState; }
      Fails(slot);
      var answer := file.Acquire();
      if answer == FileUnclear {
        status := Poison(false);
        return;
      }
      var done := answer == FileDone;
      slot := slot.(state := if done then FileOpen else LaunchFailed, hasFile := done);
      return if done then LaunchOk else LaunchFault;
    }

    method CloseFile() returns (status: LaunchStatus)
      requires Valid()
      modifies this`slot, file, arena`poisoned, observer`state, gate`held, gate`quarantined
      ensures Valid()
      ensures status == LaunchOk ==> slot == old(slot).(state := ProcessFileClosed) && file.state == FileShut
      ensures old(slot.state) != ImagePrivate ==> status == LaunchInvalidState && slot == old(slot)
      ensures old(slot.state) == ImagePrivate ==> status == LaunchOk || file.failures > old(file.failures)
    {
      hide LeaseTable.Valid, Registry.Valid, BatchTable.Valid, Runtime.Valid, Gate.Valid, Sessions.Valid, Journal.Valid,
        Journal.Bound, LaunchLog.Valid, Machine.Valid, Arena.Sound, MemorySound, Held, LeasesHeld, FilesSound, HeldBlocks,
        Shaped, Launch.Waits, LeaseTable.Holds;
      Closes(slot);
      if slot.state != ImagePrivate || !slot.hasFile { return LaunchInvalidState; }
      UnplannedHoldsLittle(slot);
      Fails(slot);
      var answer := file.Close();
      if answer == FileUnclear {
        status := Poison(false);
        return;
      }
      slot := slot.(state := if answer == FileDone then ProcessFileClosed else LaunchFailed);
      return if answer == FileDone then LaunchOk else if answer == FileKept then Retained else LaunchFault;
    }

    // ---------- memory blocks ----------

    /** Some run of free blocks can hold the paragraphs. */
    ghost predicate HasSpace(paragraphs: u16) reads arena {
      exists j: nat :: Candidate(Merge(arena.blocks), j, paragraphs)
    }

    /** Lease a block for the parent out of free memory. */
    method TakeBlock(paragraphs: u16) returns (status: LeaseStatus, lease: Lease, maximum: u16)
      requires Objects() && Accounted() && Unjournalled(slot.state)
      modifies leases, arena.machine`mem, arena.machine`faults, arena`poisoned, arena`trace, arena`blocks
      ensures Objects()
      ensures status == LeaseOk && !arena.poisoned ==>
        && lease.Leased? && lease.paragraphs == paragraphs
        && (slot.environment == NoLease ==> AccountedFor(lease, slot.target))
        && (slot.target == NoLease ==> AccountedFor(slot.environment, lease))
      ensures status != LeaseOk && !arena.poisoned ==> Accounted()
      ensures status == LeaseOk ==> !arena.poisoned && IsMaximum(Merge(old(arena.blocks)), maximum)
      ensures arena.machine.faults >= old(arena.machine.faults)
      ensures slot.parent.currentPsp != 0 && old(leases.HasRoom()) && old(HasSpace(paragraphs)) ==>
        status == LeaseOk || arena.machine.faults > old(arena.machine.faults)
    {
      hide Registry.Valid, BatchTable.Valid, Runtime.Valid, Gate.Valid, Sessions.Valid, Journal.Valid, LaunchLog.Valid,
        MemorySound, Held, LeaseHeld, FilesSound, HeldBlocks, IsChain, AllTile, Current, DecodeHandle, Gained, SameHoldings,
        SameOutsideFree, Undo, Owned, Merge, Candidate, IsMaximum, LeaseTable.HasRoom;
      lease, maximum := NoLease, 0;
      ghost var m0, b0, s0, held, owner := arena.machine.mem, arena.blocks, leases.slots, slot.Held(), slot.parent.currentPsp;
      MemoryPlain(start, m0, journal.a20, arena.head, arena.end, b0, held);
      var receipt;
      status, receipt := leases.Acquire(arena, slot.parent.currentPsp, [], paragraphs);
      if arena.poisoned { return; }
      if status != LeaseOk {
        MemorySame(start, m0, journal.a20, arena.head, arena.end, b0, held, arena.machine.mem, arena.blocks);
        LeaseKept(s0, leases.slots, leases.identity, KeyOf(arena), slot.environment, owner);
        LeaseKept(s0, leases.slots, leases.identity, KeyOf(arena), slot.target, owner);
        return;
      }
      lease, maximum := Leased(receipt.handle, receipt.guest, receipt.paragraphs), receipt.maximum;
      MemoryGain(start, m0, journal.a20, arena.head, arena.end, b0, held, arena.machine.mem, arena.blocks,
                 BlockHeld(receipt.guest, paragraphs, owner));
      LeaseTaken(s0, leases.slots, leases.identity, KeyOf(arena), slot.environment, owner, receipt.handle);
      LeaseTaken(s0, leases.slots, leases.identity, KeyOf(arena), slot.target, owner, receipt.handle);
      LeaseFresh(leases.slots, leases.identity, KeyOf(arena), lease, owner);
      HeldWith(slot.environment, slot.target, lease, owner);
    }

    /** Build the environment in the paragraphs of its block. */
    method Fill(lease: Lease)
      requires Objects() && Accounted() && Unjournalled(slot.state) && lease.Leased? && lease == slot.environment
      modifies arena.machine`mem
      ensures Objects() && Accounted()
    {
      hide LeaseTable.Valid, Registry.Valid, BatchTable.Valid, Runtime.Valid, Gate.Valid, Sessions.Valid, Journal.Valid,
        LaunchLog.Valid, Arena.Sound, MemorySound, Held, LeasesHeld, FilesSound;
      ghost var b := BlockHeld(lease.guest, lease.paragraphs, slot.parent.currentPsp);
      HeldInMemory(start, arena.machine.mem, journal.a20, arena.head, arena.end, arena.blocks, slot.Held(), b);
      var at, bytes: seq<byte> := McbChain.RECORD_BYTES * lease.guest, *;
      if lease.guest == 0 || |bytes| != McbChain.RECORD_BYTES * lease.paragraphs { return; }
      var m0 := arena.machine.mem;
      arena.machine.mem := m0[..at] + bytes + m0[at + |bytes|..];
      MemoryFilled(start, m0, journal.a20, arena.head, arena.end, arena.blocks, slot.Held(), arena.machine.mem, b);
    }

    /** Lease and build the child's environment, if it gets one. */
    method PrepareEnvironment(wanted: bool, paragraphs: u16, built: LaunchStatus) returns (status: LaunchStatus)
      requires Valid()
      modifies this`slot, leases, arena.machine`mem, arena.machine`faults, arena`poisoned, arena`trace, arena`blocks,
        observer`state, gate`held, gate`quarantined
      ensures Valid()
      ensures status == LaunchOk ==>
        && slot == old(slot).(state := EnvironmentBlockReady, environment := slot.environment)
        && (slot.environment.Leased? <==> wanted) && (wanted ==> slot.environment.paragraphs == paragraphs && built == LaunchOk)
        && runtime.generation < 0xffff_ffff_ffff_ffff
      ensures old(slot.state) != EnvironmentReady ==> status == LaunchInvalidState && slot == old(slot)
      ensures old(slot.state) == EnvironmentReady && runtime.generation < 0xffff_ffff_ffff_ffff && !wanted ==>
        status == LaunchOk
      ensures old(slot.state) == EnvironmentReady && runtime.generation < 0xffff_ffff_ffff_ffff && built == LaunchOk
              && old(slot.parent).currentPsp != 0 && old(leases.HasRoom()) && old(HasSpace(paragraphs)) ==>
        status == LaunchOk || arena.machine.faults > old(arena.machine.faults)
    {
      hide Launch.Objects, Launch.AccountedFor, Shaped, Launch.HasSpace, LeaseTable.HasRoom, IsMaximum;
      if slot.state == EnvironmentReady {
        TakesEnvironment(slot, NoLease);
        RuntimeStands();
      }
      if slot.state != EnvironmentReady || slot.environment.Leased? { return LaunchInvalidState; }
      if runtime.PreflightExec(slot.parent) != RuntimeOk {
        Fail();
        return RuntimeChanged;
      }
      UnplannedHoldsLittle(slot);
      if !wanted {
        Move(EnvironmentBlockReady);
        return LaunchOk;
      }
      if slot.parent.currentPsp == 0 {
        Fail();
        return RuntimeChanged;
      }
      var taken, lease, maximum := TakeBlock(paragraphs);
      if taken != LeaseOk || arena.poisoned {
        status := TakeFailed(taken);
        return;
      }
      TakesEnvironment(slot, lease);
      Adopt(lease, slot.target);
      status := FinishEnvironment(built);
    }

    /** No block: an expected refusal fails the launch, anything else poisons. */
    method TakeFailed(taken: LeaseStatus) returns (status: LaunchStatus)
      requires Objects() && (!arena.poisoned ==> Accounted()) && Shaped(slot) && slot.state in {EnvironmentReady, ImageReady}
      modifies this`slot, arena`poisoned, observer`state, gate`held, gate`quarantined
      ensures Valid() && status != LaunchOk
    {
      hide Launch.Objects, Launch.AccountedFor, Shaped;
      if arena.poisoned || taken !in {NoSlot, LeaseGenerationExhausted, LeaseNotEnoughMemory, LeaseMachineFault} {
        status := Poison(true);
        return;
      }
      Fail();
      return if taken == LeaseNotEnoughMemory then NotEnough else Unavailable;
    }

    /** Enter the leases into the launch's record. */
    method Adopt(environment: Lease, target: Lease)
      requires Objects() && AccountedFor(environment, target)
      modifies this`slot
      ensures Objects() && Accounted()
      ensures slot == old(slot).(environment := environment, target := target,
                                 resident := if target.NoLease? && old(slot.target.Leased?) then NoResident
                                             else old(slot.resident))
    {
      hide LeaseTable.Valid, Registry.Valid, BatchTable.Valid, Runtime.Valid, Gate.Valid, Sessions.Valid, Journal.Valid,
        Journal.Bound, LaunchLog.Valid, Machine.Valid, Arena.Sound, MemorySound, Held, LeasesHeld, FilesSound, HeldBlocks;
      slot := slot.(environment := environment, target := target,
                    resident := if target.NoLease? && slot.target.Leased? then NoResident else slot.resident);
    }

    /** Fill the environment just leased and see whether that went well. */
    method FinishEnvironment(built: LaunchStatus) returns (status: LaunchStatus)
      requires Objects() && Accounted() && slot.state == EnvironmentReady && slot.environment.Leased? && !slot.hasSession
      requires Shaped(slot.(state := LaunchFailed)) && Shaped(slot.(state := EnvironmentBlockReady))
      modifies this`slot, arena.machine`mem, arena`poisoned, observer`state, gate`held, gate`quarantined
      ensures Valid()
      ensures status == LaunchOk ==> slot == old(slot).(state := EnvironmentBlockReady)
      ensures status == LaunchOk <==> built == LaunchOk
      ensures built != LaunchOk ==>
        slot == old(slot).(state := if built == LaunchIsPoisoned then LaunchPoisoned else LaunchFailed)
    {
      hide Launch.Objects, Launch.AccountedFor, Shaped;
      Fill(slot.environment);
      if built == LaunchIsPoisoned {
        status := Poison(true);
        return;
      }
      if built != LaunchOk {
        Move(LaunchFailed);
        return LaunchFault;
      }
      Move(EnvironmentBlockReady);
      return LaunchOk;
    }

    /** Ask the arena for its largest free block; this merges free runs. */
    method QueryMemory() returns (status: MemoryStatus, maximum: u16)
      requires Objects() && Accounted() && Unjournalled(slot.state)
      modifies arena.machine`mem, arena.machine`faults, arena`poisoned, arena`trace, arena`blocks
      ensures Objects() && (!arena.poisoned ==> Accounted()) && (status == MemoryOk ==> !arena.poisoned)
      ensures status == MemoryOk ==>
        IsMaximum(Merge(old(arena.blocks)), maximum) && Merge(arena.blocks) == Merge(old(arena.blocks))
      ensures arena.machine.faults >= old(arena.machine.faults)
      ensures status == MemoryOk || arena.machine.faults > old(arena.machine.faults)
    {
      hide LeaseTable.Valid, Registry.Valid, BatchTable.Valid, Runtime.Valid, Gate.Valid, Sessions.Valid, Journal.Valid,
        LaunchLog.Valid, MemorySound, Held, LeasesHeld, FilesSound, HeldBlocks, IsChain, AllTile, Merge, Owned, InFree,
        SameOutsideFree, SameHoldings, IsMaximum, Undo;
      ghost var m0, b0 := arena.machine.mem, arena.blocks;
      MemoryPlain(start, m0, journal.a20, arena.head, arena.end, b0, slot.Held());
      ChainTiled(m0, arena.head, arena.end, b0);
      status, maximum := arena.QueryMaximum();
      if arena.poisoned { return; }
      ChainTiled(arena.machine.mem, arena.head, arena.end, arena.blocks);
      MergedMeaning(b0, arena.blocks, arena.head, arena.end);
      HoldingsKept(b0, arena.blocks);
      HeldFrame(leases.slots, KeyOf(arena), b0, arena.blocks);
      MemorySame(start, m0, journal.a20, arena.head, arena.end, b0, slot.Held(), arena.machine.mem, arena.blocks);
    }

    /** Lease the block the program will live in. */
    method PrepareTarget(paragraphs: u16, fits: bool) returns (status: LaunchStatus)
      requires Valid()
      modifies this`slot, leases, arena.machine`mem, arena.machine`faults, arena`poisoned, arena`trace, arena`blocks,
        observer`state, gate`held, gate`quarantined
      ensures Valid()
      ensures status == LaunchOk ==>
        && slot == old(slot).(state := TargetReady, target := slot.target)
        && slot.target.Leased? && slot.target.paragraphs == paragraphs && fits
        && runtime.generation < 0xffff_ffff_ffff_ffff && slot.parent.currentPsp != 0
      ensures old(slot.state) != ImageReady ==> status == LaunchInvalidState && slot == old(slot)
      ensures old(slot.state) == ImageReady && runtime.generation < 0xffff_ffff_ffff_ffff && fits
              && old(slot.parent).currentPsp != 0 && old(leases.HasRoom()) && old(HasSpace(paragraphs)) ==>
        status == LaunchOk || arena.machine.faults > old(arena.machine.faults)
    {
      hide Launch.Objects, Launch.AccountedFor, Shaped, LeaseTable.HasRoom, IsMaximum, Merge;
      if slot.state == ImageReady {
        TakesTarget(slot, Leased(1, 1, 1));
        RuntimeStands();
      }
      if slot.state != ImageReady || slot.target.Leased? { return LaunchInvalidState; }
      if runtime.PreflightExec(slot.parent) != RuntimeOk || slot.parent.currentPsp == 0 {
        Fail();
        return RuntimeChanged;
      }
      ghost var b0 := arena.blocks;
      var queried, available := QueryMemory();
      if arena.poisoned {
        status := Poison(true);
        return;
      }
      if queried == MemoryOk { SpaceBelowMaximum(b0, paragraphs, available); }
      if queried != MemoryOk || !fits || paragraphs > available {
        Fail();
        return if queried != MemoryOk then LaunchFault else NotEnough;
      }
      status := LeaseTarget(paragraphs, available);
    }

    /** The block the arena grants must be the one the query announced. */
    method LeaseTarget(paragraphs: u16, available: u16) returns (status: LaunchStatus)
      requires Valid() && slot.state == ImageReady && slot.target == NoLease && IsMaximum(Merge(arena.blocks), available)
      modifies this`slot, leases, arena.machine`mem, arena.machine`faults, arena`poisoned, arena`trace, arena`blocks,
        observer`state, gate`held, gate`quarantined
      ensures Valid()
      ensures status == LaunchOk ==>
        && slot == old(slot).(state := TargetReady, target := slot.target) && slot.target.Leased?
        && slot.target.paragraphs == paragraphs
      ensures arena.machine.faults >= old(arena.machine.faults)
      ensures old(slot.parent).currentPsp != 0 && old(leases.HasRoom()) && old(HasSpace(paragraphs)) ==>
        status == LaunchOk || arena.machine.faults > old(arena.machine.faults)
    {
      hide Launch.Objects, Launch.AccountedFor, Shaped, LeaseTable.HasRoom, IsMaximum, Merge, Launch.HasSpace;
      ghost var b0 := arena.blocks;
      var taken, lease, maximum := TakeBlock(paragraphs);
      if taken != LeaseOk || arena.poisoned {
        status := TakeFailed(taken);
        return;
      }
      UnplannedHoldsLittle(slot);
      TakesTarget(slot, lease);
      Adopt(slot.environment, lease);
      MaximumUnique(Merge(b0), maximum, available);
      if maximum != available { assert false; }
      Move(TargetReady);
      return LaunchOk;
    }

    /** The load block as the loader sees it. */
    function View(): (view: LeaseView)
      requires slot.target.Leased?
      reads this
    {
      LeaseView(slot.target.guest, slot.target.paragraphs)
    }

    /** Memory outside of the paragraphs of the load block is what it was. */
    twostate predicate OnlyLoadBlock() reads this, arena, arena.machine {
      slot.target.Leased? ==>
        SameOutsideData(old(arena.machine.mem), arena.machine.mem,
                        BlockHeld(slot.target.guest, slot.target.paragraphs, slot.parent.currentPsp))
    }

    /** Read the image into the load block. */
    method ReadImage(image: Image) returns (loaded: LoadStatus)
      requires Objects() && Accounted() && Unjournalled(slot.state) && slot.target.Leased?
      requires Plannable(image, View(), |reader.bytes|)
      modifies reader`failures, arena.machine`mem, arena.machine`faults
      ensures Objects() && Accounted() && OnlyLoadBlock()
      ensures loaded == LoadOk && reader.stable ==> ImageIn(old(arena.machine.mem), arena.machine.mem, reader, View(), image)
      ensures reader.stable && (image.MzImage? ==> 16 * image.resident < 512 + BytesFrom(reader, image.fileOffset)) ==>
        loaded == LoadOk || arena.machine.faults > old(arena.machine.faults) || reader.failures > old(reader.failures)
    {
      hide LeaseTable.Valid, Registry.Valid, BatchTable.Valid, Runtime.Valid, Gate.Valid, Sessions.Valid, Journal.Valid,
        LaunchLog.Valid, Arena.Sound, MemorySound, Held, LeasesHeld, FilesSound, ImageIn, Confined, SameOutsideData,
        Shaped;
      ghost var m0, b := arena.machine.mem, BlockHeld(slot.target.guest, slot.target.paragraphs, slot.parent.currentPsp);
      HeldInMemory(start, m0, journal.a20, arena.head, arena.end, arena.blocks, slot.Held(), b);
      loaded := LoadImage(reader, arena.machine, View(), image);
      ConfinedToLease(m0, arena.machine.mem, View(), slot.parent.currentPsp);
      MemoryFilled(start, m0, journal.a20, arena.head, arena.end, arena.blocks, slot.Held(), arena.machine.mem, b);
    }

    /** Load the program behind its PSP or to the end of its block: then the
        file's bytes lie there, and in any case nothing outside of the block
        has changed. */
    method LoadResident(image: Image) returns (status: LaunchStatus)
      requires Valid()
      modifies this`slot, reader`failures, arena.machine`mem, arena.machine`faults, arena`poisoned, observer`state, gate`held,
        gate`quarantined
      ensures Valid() && (old(slot.state) == TargetReady ==> OnlyLoadBlock())
      ensures status == LaunchOk ==>
        && slot == old(slot).(state := ResidentReady, resident := slot.resident) && slot.target.Leased?
        && runtime.generation < 0xffff_ffff_ffff_ffff && slot.parent.currentPsp != 0
        && Plannable(image, View(), |reader.bytes|)
        && ResidentAt(image, View(), slot.resident)
        && (reader.stable ==> ImageIn(old(arena.machine.mem), arena.machine.mem, reader, View(), image))
      ensures old(slot.state) != TargetReady ==> status == LaunchInvalidState && slot == old(slot)
      ensures old(slot.state) == TargetReady && runtime.generation < 0xffff_ffff_ffff_ffff && old(slot.parent).currentPsp != 0
              && reader.stable && slot.target.Leased? && Plannable(image, View(), |reader.bytes|)
              && (image.MzImage? ==> 16 * image.resident < 512 + BytesFrom(reader, image.fileOffset)) ==>
        status == LaunchOk || arena.machine.faults > old(arena.machine.faults) || reader.failures > old(reader.failures)
    {
      hide Launch.Objects, Launch.AccountedFor, Shaped, Coherent, SameOutsideData, ImageIn, Launch.Waits,
        LeaseTable.Holds;
      if slot.state == TargetReady {
        HasTarget(slot);
        RuntimeStands();
      }
      if slot.state != TargetReady || slot.target.NoLease? { return LaunchInvalidState; }
      SameOutsideItself(arena.machine.mem, BlockHeld(slot.target.guest, slot.target.paragraphs, slot.parent.currentPsp));
      if runtime.PreflightExec(slot.parent) != RuntimeOk || slot.parent.currentPsp == 0 {
        Fail();
        return RuntimeChanged;
      }
      if !Plannable(image, View(), |reader.bytes|) {
        Fail();
        return BadImage;
      }
      status := LoadPlanned(image);
    }

    method LoadPlanned(image: Image) returns (status: LaunchStatus)
      requires Valid() && slot.state == TargetReady && slot.target.Leased? && Plannable(image, View(), |reader.bytes|)
      modifies this`slot, reader`failures, arena.machine`mem, arena.machine`faults, arena`poisoned, observer`state, gate`held,
        gate`quarantined
      ensures Valid() && slot == old(slot).(state := slot.state, resident := slot.resident) && OnlyLoadBlock()
      ensures status == LaunchOk ==>
        && slot.state == ResidentReady
        && ResidentAt(image, View(), slot.resident)
        && (reader.stable ==> ImageIn(old(arena.machine.mem), arena.machine.mem, reader, View(), image))
      ensures reader.stable && (image.MzImage? ==> 16 * image.resident < 512 + BytesFrom(reader, image.fileOffset)) ==>
        status == LaunchOk || arena.machine.faults > old(arena.machine.faults) || reader.failures > old(reader.failures)
    {
      hide Launch.Objects, Launch.AccountedFor, Shaped, Coherent, SameOutsideData, ImageIn, Launch.Waits, LeaseTable.Holds;
      var loaded := ReadImage(image);
      if loaded in {LoadBadLease, LoadStalePlan, LoadBadResidentRange, LoadPoisoned} {
        status := Poison(true);
        return;
      }
      if loaded != LoadOk {
        Fail();
        return if loaded == LoadFault then LaunchFault else BadImage;
      }
      var resident := if image.ComImage? then ComResident else MzResident(PlanOf(image, View()).segment, image.resident);
      UnplannedHoldsLittle(slot);
      LoadedCoherent(slot, image);
      Loads(slot, resident);
      Keep(slot.(state := ResidentReady, resident := resident));
      return LaunchOk;
    }

    /** The relocation request for the image in the load block. */
    function Relocation(table: nat, count: nat): (request: Relocator.Request)
      requires slot.resident.MzResident?
      reads this
    {
      Relocator.Request(table, PARAGRAPH * slot.resident.segment, PARAGRAPH * slot.resident.paragraphs, count,
                        slot.resident.segment)
    }

    /** The table lies in the file, and every entry names a word of the image. */
    ghost predicate Relocatable(table: nat, count: nat)
      requires slot.resident.MzResident?
      reads this, arena, arena.machine
    {
      && table <= 0xffff && (count > 0 ==> table + 4 * count <= |reader.bytes| && 16 * slot.resident.paragraphs >= 2)
      && var request := Relocator.Request(table, 16 * slot.resident.segment, 16 * slot.resident.paragraphs, count,
                                          slot.resident.segment);
         forall i :: 0 <= i < count ==>
           Relocator.Good(Relocator.ItemAt(reader.bytes, request, i), request, arena.machine.a20, |arena.machine.mem|)
    }

    /** Relocate the image where it was loaded. */
    method RelocateImage(table: nat, count: nat) returns (relocated: Relocator.RelocatorStatus)
      requires Objects() && Accounted() && Unjournalled(slot.state) && Coherent(slot) && slot.resident.MzResident?
      modifies reader`failures, arena.machine`mem, arena.machine`faults
      ensures Objects() && Accounted() && OnlyLoadBlock()
      ensures relocated == Relocator.RelocatorOk && reader.stable ==>
        Relocator.Progress(old(arena.machine.mem), arena.machine.mem, reader.bytes, Relocation(table, count),
                           arena.machine.a20, count)
      ensures arena.machine.faults >= old(arena.machine.faults) && reader.failures >= old(reader.failures)
      ensures reader.stable && old(Relocatable(table, count)) ==>
        || relocated == Relocator.RelocatorOk || arena.machine.faults > old(arena.machine.faults)
        || reader.failures > old(reader.failures)
    {
      hide LeaseTable.Valid, Registry.Valid, BatchTable.Valid, Runtime.Valid, Gate.Valid, Sessions.Valid, Journal.Valid,
        LaunchLog.Valid, Arena.Sound, MemorySound, Held, LeasesHeld, FilesSound, Relocator.Progress, Relocator.Inside,
        Relocator.Good, SameOutsideData;
      ghost var m0, b := arena.machine.mem, BlockHeld(slot.target.guest, slot.target.paragraphs, slot.parent.currentPsp);
      HeldInMemory(start, m0, journal.a20, arena.head, arena.end, arena.blocks, slot.Held(), b);
      ghost var applied;
      relocated, applied := Relocator.Apply(reader, arena.machine, Relocation(table, count));
      RelocatedInLease(m0, arena.machine.mem, Relocation(table, count), View(), slot.parent.currentPsp);
      MemoryFilled(start, m0, journal.a20, arena.head, arena.end, arena.blocks, slot.Held(), arena.machine.mem, b);
    }

    /** Relocate an MZ image by its load segment; a COM image needs nothing. */
    method Relocate(table: nat, count: nat) returns (status: LaunchStatus)
      requires Valid()
      modifies this`slot, reader`failures, arena.machine`mem, arena.machine`faults, arena`poisoned, observer`state, gate`held,
        gate`quarantined
      ensures Valid() && (old(slot.state) == ResidentReady ==> OnlyLoadBlock())
      ensures status == LaunchOk ==>
        && slot == old(slot).(state := ImagePrivate) && runtime.generation < 0xffff_ffff_ffff_ffff
        && (slot.resident.ComResident? ==> arena.machine.mem == old(arena.machine.mem))
        && (slot.resident.MzResident? && reader.stable ==>
              var request := Relocator.Request(table, 16 * slot.resident.segment, 16 * slot.resident.paragraphs, count,
                                               slot.resident.segment);
              Relocator.Progress(old(arena.machine.mem), arena.machine.mem, reader.bytes, request, arena.machine.a20, count))
      ensures old(slot.state) != ResidentReady ==> status == LaunchInvalidState && slot == old(slot)
      ensures old(slot.state) == ResidentReady && runtime.generation < 0xffff_ffff_ffff_ffff ==>
        && (slot.resident.ComResident? ==> status == LaunchOk)
        && (slot.resident.MzResident? && reader.stable && old(slot.resident.MzResident? && Relocatable(table, count)) ==>
              || status == LaunchOk || arena.machine.faults > old(arena.machine.faults)
              || reader.failures > old(reader.failures))
    {
      hide Launch.Objects, Launch.AccountedFor, Shaped, Coherent, SameOutsideData, Relocator.Progress, Launch.Relocatable,
        Launch.Waits, LeaseTable.Holds;
      if slot.state == ResidentReady {
        HasTarget(slot);
        RuntimeStands();
      }
      if slot.state != ResidentReady || slot.target.NoLease? { return LaunchInvalidState; }
      SameOutsideItself(arena.machine.mem, BlockHeld(slot.target.guest, slot.target.paragraphs, slot.parent.currentPsp));
      if runtime.PreflightExec(slot.parent) != RuntimeOk {
        Fail();
        return RuntimeChanged;
      }
      UnplannedHoldsLittle(slot);
      Closes(slot);
      if slot.resident.ComResident? {
        Move(ImagePrivate);
        return LaunchOk;
      }
      status := RelocateMz(table, count);
    }

    method RelocateMz(table: nat, count: nat) returns (status: LaunchStatus)
      requires Valid() && slot.state == ResidentReady && slot.resident.MzResident?
      modifies this`slot, reader`failures, arena.machine`mem, arena.machine`faults, arena`poisoned, observer`state, gate`held,
        gate`quarantined
      ensures Valid() && OnlyLoadBlock() && slot == old(slot).(state := slot.state)
      ensures status == LaunchOk ==>
        && slot.state == ImagePrivate
        && (reader.stable ==>
              Relocator.Progress(old(arena.machine.mem), arena.machine.mem, reader.bytes, Relocation(table, count),
                                 arena.machine.a20, count))
      ensures reader.stable && old(Relocatable(table, count)) ==>
        status == LaunchOk || arena.machine.faults > old(arena.machine.faults) || reader.failures > old(reader.failures)
    {
      hide Launch.Objects, Launch.AccountedFor, Shaped, Coherent, SameOutsideData, Relocator.Progress, Launch.Relocatable,
        Launch.Waits, LeaseTable.Holds;
      UnplannedHoldsLittle(slot);
      Closes(slot);
      var relocated := RelocateImage(table, count);
      if relocated in {Relocator.BadResidentRange, Relocator.RelocatorPoisoned} {
        status := Poison(true);
        return;
      }
      if relocated != Relocator.RelocatorOk {
        Fail();
        return if relocated == Relocator.RelocatorFault then LaunchFault else BadImage;
      }
      Move(ImagePrivate);
      return LaunchOk;
    }

    // ---------- files ----------

    /** The batch holds what the child gets of the parent's table, and a reference
        for each place it has a file in. */
    ghost predicate Inheriting(before: Slots, jft: seq<byte>) reads this, batches, registry {
      && 1 <= BatchHandleSlot(slot.batch) <= |batches.slots|
      && var batch := batches.slots[BatchHandleSlot(slot.batch) - 1];
         && batch.state == Prepared && HandedDown(before, jft, batch.child)
         && GainsMentions(before, registry.slots, batch.child)
    }

    /** Prepare the batch; only success takes a reference. */
    method ReserveBatch(jft: seq<byte>) returns (prepared: BatchStatus)
      requires Objects() && Accounted() && slot.state == ParentSnapshotReady && !slot.hasBatch && |jft| == JFT_ENTRIES
      modifies this`slot, batches`slots, registry`slots, registry`closed, registry`closings, registry`failures
      ensures Objects()
      ensures prepared == BatchOk ==>
        && Accounted() && slot == old(slot).(state := SftReserved, hasBatch := true, batch := slot.batch)
        && Inheriting(old(registry.slots), jft)
      ensures prepared == BatchOk <==> MayHandDown(old(registry.slots), jft) && Available(old(batches.slots))
      ensures prepared in {BatchNoSlot, BatchAdapterFault} ==> Accounted() && slot == old(slot)
    {
      hide LeaseTable.Valid, Runtime.Valid, Gate.Valid, Sessions.Valid, Journal.Valid, Journal.Bound, LaunchLog.Valid,
        Machine.Valid, Arena.Sound, MemorySound, Held, LeasesHeld, HeldBlocks, Lifetimes, EntriesName, Covered, DropAll,
        Closings, Sfns, Used, Raise, ChildJft, CanInherit, Available, BatchHandleSlot, BatchHandleGeneration, HandedDown,
        GainsMentions, MayHandDown;
      var handle;
      prepared, handle := batches.Prepare(registry, registry.context, jft);
      if prepared == BatchOk { slot := slot.(state := SftReserved, hasBatch := true, batch := handle); }
    }

    /** Take the references the child will inherit. */
    method PrepareInheritance(jft: seq<byte>) returns (status: LaunchStatus)
      requires Valid() && |jft| == JFT_ENTRIES
      modifies this`slot, batches`slots, registry`slots, registry`closed, registry`closings, registry`failures, arena`poisoned,
        observer`state, gate`held, gate`quarantined
      ensures Valid()
      ensures status == LaunchOk ==>
        && slot == old(slot).(state := SftReserved, hasBatch := true, batch := slot.batch)
        && Inheriting(old(registry.slots), jft)
      ensures old(slot.state) != ParentSnapshotReady ==> status == LaunchInvalidState && slot == old(slot)
      ensures old(slot.state) == ParentSnapshotReady ==>
        (status == LaunchOk <==>
           && runtime.generation < 0xffff_ffff_ffff_ffff && MayHandDown(old(registry.slots), jft)
           && Available(old(batches.slots)))
    {
      hide Launch.Objects, Launch.AccountedFor, Shaped, Launch.Inheriting, MayHandDown, Available;
      if slot.state == ParentSnapshotReady {
        UnplannedHoldsLittle(slot);
        ReservesFiles(slot, 0);
        RuntimeStands();
      }
      if slot.state != ParentSnapshotReady || slot.hasBatch { return LaunchInvalidState; }
      if runtime.PreflightExec(slot.parent) != RuntimeOk {
        Fail();
        return RuntimeChanged;
      }
      ghost var before := slot;
      var prepared := ReserveBatch(jft);
      if prepared == BatchOk {
        ReservesFiles(before, slot.batch);
        return LaunchOk;
      }
      if prepared !in {BatchNoSlot, BatchAdapterFault} {
        status := Poison(true);
        return;
      }
      Fail();
      return if prepared == BatchNoSlot then Unavailable else LaunchFault;
    }

    // ---------- journalled memory ----------

    /** Write through the journal; what it covers can be undone. */
    method Stage(patch: Patch) returns (status: JournalStatus)
      requires Objects() && Accounted() && !Unjournalled(slot.state)
      modifies journal`records, journal`state, arena.machine`mem, arena.machine`faults
      ensures Objects() && (status == JournalPoisoned <==> journal.state == PoisonedState)
      ensures status != JournalPoisoned ==> Accounted() && journal.state == old(journal.state)
      ensures status == JournalOk ==>
        && journal.state == Staging && arena.machine.mem == Written(old(arena.machine.mem), patch, arena.machine.a20)
        && |journal.records| == |old(journal.records)| + 1
      ensures arena.machine.faults >= old(arena.machine.faults) && |arena.machine.mem| == |old(arena.machine.mem)|
      ensures old(journal.state) == Staging && Within(Reach(patch, arena.machine.a20), |arena.machine.mem|)
              && 0 < |patch.bytes| <= 64 && |old(journal.records)| < 16 ==>
        status == JournalOk || arena.machine.faults > old(arena.machine.faults)
    {
      hide LeaseTable.Valid, Registry.Valid, BatchTable.Valid, Runtime.Valid, Gate.Valid, Sessions.Valid, LaunchLog.Valid,
        Arena.Sound, MemorySound, Held, LeasesHeld, FilesSound, HeldBlocks, Undo, WellFormed, Fit, Store, Load, FarRange,
        Within, Shaped;
      ghost var m0, r0 := arena.machine.mem, journal.records;
      status := journal.StageReplaceFar(machineIdentity, arena.machine, patch.segment, patch.offset, patch.bytes);
      if status == JournalPoisoned { return; }
      MemoryJournalled(start, m0, r0, arena.machine.mem, journal.records, journal.a20, arena.head, arena.end, arena.blocks,
                       slot.Held());
    }

    /** The same for the whole PSP, which takes four records. */
    method StagePsp(psp: Patch) returns (status: JournalStatus)
      requires Objects() && Accounted() && !Unjournalled(slot.state) && |psp.bytes| == 256
      modifies journal`records, journal`state, arena.machine`mem, arena.machine`faults
      ensures Objects() && (status == JournalPoisoned <==> journal.state == PoisonedState)
      ensures status != JournalPoisoned ==> Accounted() && journal.state == old(journal.state)
      ensures status == JournalOk ==>
        && journal.state == Staging && arena.machine.mem == Written(old(arena.machine.mem), psp, arena.machine.a20)
        && |journal.records| == |old(journal.records)| + 4
      ensures arena.machine.faults >= old(arena.machine.faults) && |arena.machine.mem| == |old(arena.machine.mem)|
      ensures old(journal.state) == Staging && Within(Reach(psp, arena.machine.a20), |arena.machine.mem|)
              && |old(journal.records)| + 4 <= 16 ==>
        status == JournalOk || arena.machine.faults > old(arena.machine.faults)
    {
      hide LeaseTable.Valid, Registry.Valid, BatchTable.Valid, Runtime.Valid, Gate.Valid, Sessions.Valid, LaunchLog.Valid,
        Arena.Sound, MemorySound, Held, LeasesHeld, FilesSound, HeldBlocks, Undo, WellFormed, Fit, Store, Load, FarRange,
        Within, Shaped;
      PspNeedsFour();
      ghost var m0, r0 := arena.machine.mem, journal.records;
      status := journal.StageReplaceFarSpan(machineIdentity, arena.machine, psp.segment, psp.offset, psp.bytes);
      if status == JournalPoisoned { return; }
      MemoryJournalled(start, m0, r0, arena.machine.mem, journal.records, journal.a20, arena.head, arena.end, arena.blocks,
                       slot.Held());
    }

    /** Take every journalled byte back. */
    method UndoJournal() returns (ok: bool)
      requires Objects() && Accounted() && slot.state in {MemoryStaging, Aborting} && slot.rebinds.NoRebinds?
      modifies journal`records, journal`state, arena.machine`mem, arena.machine`faults
      ensures Objects() && (ok ==> Accounted() && journal.records == [] && journal.state == Aborted)
      ensures arena.machine.faults >= old(arena.machine.faults)
      ensures ok || old(journal.state) != Staging || arena.machine.faults > old(arena.machine.faults)
    {
      hide LeaseTable.Valid, Registry.Valid, BatchTable.Valid, Runtime.Valid, Gate.Valid, Sessions.Valid, LaunchLog.Valid,
        Arena.Sound, MemorySound, Held, LeasesHeld, FilesSound, HeldBlocks, WellFormed, Fit;
      ghost var m0, r0 := arena.machine.mem, journal.records;
      var status := journal.Abort(machineIdentity, arena.machine);
      if status != JournalOk { return false; }
      MemoryJournalled(start, m0, r0, arena.machine.mem, [], journal.a20, arena.head, arena.end, arena.blocks, slot.Held());
      return true;
    }

    /** The stack could not be staged: forget what was planned, then undo. */
    method HandoffFailed(staged: JournalStatus) returns (status: LaunchStatus)
      requires Objects() && slot.state == MemoryStaging && Shaped(slot.Unbound()) && staged != JournalOk
      requires staged != JournalPoisoned ==> Accounted()
      modifies this`slot, journal`records, journal`state, arena.machine`mem, arena.machine`faults, arena`poisoned,
        observer`state, gate`held, gate`quarantined
      ensures Valid() && status != LaunchOk && arena.machine.faults >= old(arena.machine.faults)
      ensures slot == old(slot).Unbound().(state := LaunchFailed) || slot.state == LaunchPoisoned
      ensures staged == JournalMachineFault && old(journal.state) == Staging
        && arena.machine.faults == old(arena.machine.faults)
        ==> slot.state == LaunchFailed && status == LaunchFault
      ensures staged != JournalMachineFault ==> slot.state == LaunchPoisoned
      ensures staged == JournalPoisoned ==> arena.poisoned
    {
      hide Launch.Objects, Launch.AccountedFor, Shaped;
      if staged == JournalPoisoned {
        status := Poison(true);
        return;
      }
      Keep(slot.Unbound());
      status := StageFailed(staged);
    }

    /** A staging step did not go through: undo, or poison. */
    method StageFailed(staged: JournalStatus) returns (status: LaunchStatus)
      requires Objects() && Shaped(slot) && slot.state == MemoryStaging && slot.rebinds.NoRebinds?
      requires staged != JournalPoisoned ==> Accounted()
      modifies this`slot, journal`records, journal`state, arena.machine`mem, arena.machine`faults, arena`poisoned,
        observer`state, gate`held, gate`quarantined
      ensures Valid() && status != LaunchOk && arena.machine.faults >= old(arena.machine.faults)
      ensures slot == old(slot).(state := LaunchFailed) || slot.state == LaunchPoisoned
      ensures staged == JournalMachineFault && old(journal.state) == Staging
        && arena.machine.faults == old(arena.machine.faults)
        ==> slot.state == LaunchFailed && status == LaunchFault
      ensures staged != JournalMachineFault ==> slot.state == LaunchPoisoned
      ensures staged == JournalPoisoned ==> arena.poisoned
    {
      hide Launch.Objects, Launch.AccountedFor, Shaped;
      if staged == JournalPoisoned {
        status := Poison(true);
        return;
      }
      if staged != JournalMachineFault {
        status := Poison(false);
        return;
      }
      var undone := UndoJournal();
      if !undone {
        status := Poison(true);
        return;
      }
      Fails(slot);
      Move(LaunchFailed);
      return LaunchFault;
    }

    /** Stage a list of patches until one fails. */
    method StageAll(patches: seq<Patch>) returns (status: JournalStatus)
      requires Objects() && Accounted() && !Unjournalled(slot.state)
      modifies journal`records, journal`state, arena.machine`mem, arena.machine`faults
      ensures Objects()
      ensures status != JournalPoisoned ==> Accounted() && journal.state == old(journal.state)
      ensures status == JournalOk ==>
        && arena.machine.mem == AllWritten(old(arena.machine.mem), patches, arena.machine.a20)
        && (|patches| > 0 ==> journal.state == Staging) && |journal.records| == |old(journal.records)| + |patches|
      ensures arena.machine.faults >= old(arena.machine.faults) && |arena.machine.mem| == |old(arena.machine.mem)|
      ensures old(journal.state) == Staging
              && Stageable(patches, |old(journal.records)|, |arena.machine.mem|, arena.machine.a20) ==>
        status == JournalOk || arena.machine.faults > old(arena.machine.faults)
    {
      hide Launch.Objects, Launch.AccountedFor, Written, AllWritten;
      status := JournalOk;
      NothingWritten(arena.machine.mem, arena.machine.a20);
      assert patches[..0] == [];
      for i := 0 to |patches|
        invariant Objects() && Accounted() && status == JournalOk && journal.state == old(journal.state)
        invariant arena.machine.mem == AllWritten(old(arena.machine.mem), patches[..i], arena.machine.a20)
        invariant i > 0 ==> journal.state == Staging
        invariant |journal.records| == |old(journal.records)| + i && |arena.machine.mem| == |old(arena.machine.mem)|
        invariant arena.machine.faults >= old(arena.machine.faults)
      {
        AllWrittenMore(old(arena.machine.mem), patches[..i], patches[i], arena.machine.a20);
        assert patches[..i] + [patches[i]] == patches[..i + 1];
        status := Stage(patches[i]);
        if status != JournalOk { return; }
      }
      assert patches[..|patches|] == patches;
    }

    lemma {:induction false} NothingStaged()
      requires Accounted() && Unjournalled(slot.state)
      ensures journal.state == Staging && journal.records == []
    {
      hide LeaseTable.Valid, Registry.Valid, BatchTable.Valid, Arena.Sound, MemorySound, Held, LeasesHeld, FilesSound,
        HeldBlocks;
    }

    /** Put the PSP and the first stack words into guest memory. */
    method StageProcessMemory(words: seq<Patch>) returns (status: LaunchStatus)
      requires Valid()
      modifies this`slot, journal`records, journal`state, arena.machine`mem, arena.machine`faults, arena`poisoned,
        observer`state, gate`held, gate`quarantined
      ensures Valid()
      ensures status == LaunchOk ==>
        && slot == old(slot).(state := GlobalStaged) && slot.target.Leased?
        && var psp := Written(old(arena.machine.mem), Patch(slot.target.guest, 0, slot.psp), arena.machine.a20);
           arena.machine.mem == AllWritten(psp, words, arena.machine.a20)
      ensures old(slot.state) != InitialStateReady ==> status == LaunchInvalidState && slot == old(slot)
      ensures old(slot.state) == InitialStateReady && Stageable(words, 4, |old(arena.machine.mem)|, arena.machine.a20)
              && old(slot).target.Leased?
              && Within(FarRange(old(slot).target.guest, 0, 256, arena.machine.a20), |old(arena.machine.mem)|) ==>
        status == LaunchOk || arena.machine.faults > old(arena.machine.faults)
    {
      hide Launch.Objects, Launch.AccountedFor, Shaped, Written, AllWritten, Stageable, FarRange, Within;
      if slot.state == InitialStateReady {
        HasTarget(slot);
        NothingStaged();
      }
      if slot.state != InitialStateReady || slot.target.NoLease? { return LaunchInvalidState; }
      Stages(slot);
      Move(MemoryStaging);
      var staged := StagePsp(Patch(slot.target.guest, 0, slot.psp));
      if staged == JournalOk { staged := StageAll(words); }
      if staged != JournalOk {
        status := StageFailed(staged);
        return;
      }
      Move(GlobalStaged);
      return LaunchOk;
    }

    /** Plan one block's change of owner; memory is being staged, so the plan
        may rely on the lease but not on the chain. */
    method PlanRebind(lease: Lease, name: seq<byte>) returns (status: LeaseStatus, plan: RebindPlan)
      requires Objects() && Accounted() && slot.target.Leased? && |name| <= 8
      requires lease.Leased? && (lease == slot.environment || lease == slot.target)
      modifies arena.machine`faults
      ensures Objects() && Accounted() && arena.machine.faults >= old(arena.machine.faults)
      ensures status == LeaseOk ==>
        PlanMatches(slot, plan, lease) && PlanWrites(arena.machine.mem, plan.value, lease.guest, slot.target.guest, name)
      ensures ChainStands() && slot.target.guest != 0 && arena.machine.context != 0xffff_ffff_ffff_ffff ==>
        status == LeaseOk || arena.machine.faults > old(arena.machine.faults)
    {
      hide Registry.Valid, BatchTable.Valid, Runtime.Valid, Gate.Valid, Sessions.Valid, Journal.Valid, LaunchLog.Valid,
        Arena.Sound, MemorySound, Held, LeaseHeld, FilesSound, HeldBlocks, Current, DecodeHandle, WellFormed, Fit, RecordAt,
        SetName, SetOwner, LeaseTable.PreflightRebind, Shaped, Launch.ChainStands, LeaseTable.ResolveActive, LeaseTable.Holds;
      LeaseResolves(lease);
      status, plan := leases.PrepareRebind(arena, lease.handle, slot.parent.currentPsp, slot.target.guest, name, ChainStands());
      if status == LeaseOk { PlanIsOfLease(plan, lease); }
    }

    /** Staged memory still shows the arena's chain. */
    ghost predicate ChainStands() reads arena, arena.machine {
      16 * arena.end <= |arena.machine.mem| && RawChain(arena.machine.mem, arena.head, arena.end, arena.blocks)
    }

    lemma {:induction false} LeaseResolves(lease: Lease)
      requires Objects() && Accounted() && lease.Leased? && (lease == slot.environment || lease == slot.target)
      ensures leases.ResolveActive(arena, lease.handle, slot.parent.currentPsp).status == LeaseOk
      ensures ChainStands() ==> leases.Holds(arena)
    {
      hide Registry.Valid, BatchTable.Valid, Runtime.Valid, Gate.Valid, Sessions.Valid, Journal.Valid, LaunchLog.Valid,
        Arena.Sound, MemorySound, Held, FilesSound, HeldBlocks, Current, DecodeHandle, WellFormed, Fit, Shaped, IsChain,
          RawChain;
      ChainBytes(arena.machine.mem, arena.head, arena.end, arena.blocks);
    }

    /** A plan that passes names the block its lease holds. */
    lemma {:induction false} PlanIsOfLease(plan: RebindPlan, lease: Lease)
      requires leases.Valid() && leases.PreflightRebind(arena, plan) == LeaseOk && lease.Leased? && plan.handle == lease.handle
      requires LeaseHeld(leases.slots, leases.identity, KeyOf(arena), lease, slot.parent.currentPsp)
      ensures plan.WellFormed() && plan.guest == lease.guest && plan.paragraphs == lease.paragraphs
    {
      hide Current, DecodeHandle;
    }

    /** Writing these plans hands over both blocks, and the journal takes it. */
    ghost predicate HandsOver(rebinds: Rebinds, name: seq<byte>)
      requires rebinds.Rebinds? && slot.target.Leased?
      reads this, arena, arena.machine, journal
    {
      && AllWritten(arena.machine.mem, RebindPatches(rebinds), arena.machine.a20)
         == HandedOver(arena.machine.mem, slot.environment, slot.target, name)
      && |RebindPatches(rebinds)| == (if slot.environment.Leased? then 2 else 1)
      && (|journal.records| + |RebindPatches(rebinds)| <= 16 ==>
            Stageable(RebindPatches(rebinds), |journal.records|, |arena.machine.mem|, arena.machine.a20))
    }

    /** Plan the owner changes of both blocks. */
    method PlanRebinds(name: seq<byte>) returns (status: LeaseStatus, rebinds: Rebinds)
      requires Valid() && slot.state == MemoryStaging && slot.target.Leased? && |name| <= 8
      modifies arena.machine`faults
      ensures Valid()
      ensures status == LeaseOk ==>
        rebinds.Rebinds? && RebindsMatch(slot.(rebinds := rebinds)) && HandsOver(rebinds, name)
      ensures arena.machine.faults >= old(arena.machine.faults)
      ensures ChainStands() && slot.target.guest != 0 && arena.machine.context != 0xffff_ffff_ffff_ffff ==>
        status == LeaseOk || arena.machine.faults > old(arena.machine.faults)
    {
      hide Launch.Objects, Launch.AccountedFor, Shaped, PlanMatches, AllWritten, HandedOver, RebindPatches, PlanWrites,
        Stageable, LeaseTable.Holds, Launch.Waits, Launch.ChainStands;
      var environment, plan := NoEnvironment, NO_PLAN;
      status, rebinds := LeaseOk, NoRebinds;
      if slot.environment.Leased? {
        status, plan := PlanRebind(slot.environment, []);
        if status != LeaseOk { return; }
        environment := WithEnvironment(plan);
      }
      status, plan := PlanRebind(slot.target, name);
      if status != LeaseOk { return; }
      rebinds := Rebinds(environment, plan);
      PlansMatch(slot, rebinds);
      GuestsDiffer();
      RebindsHandOver(arena.machine.mem, rebinds, slot.environment, slot.target, name, arena.machine.a20);
      RebindsStageable(arena.machine.mem, rebinds, slot.environment, slot.target, name, |journal.records|, arena.machine.a20);
    }

    /** Environment and program live in different blocks. */
    lemma {:induction false} GuestsDiffer()
      requires Accounted() && slot.target.Leased?
      ensures slot.environment.Leased? ==> slot.environment.guest != slot.target.guest
    {
      hide LeaseTable.Valid, Registry.Valid, BatchTable.Valid, Arena.Sound, MemorySound, FilesSound, HeldBlocks, DecodeHandle,
        Owned;
      if slot.environment.Leased? {
        LeaseSlotsDiffer(leases.slots, leases.identity, KeyOf(arena), slot.environment, slot.target, slot.parent.currentPsp);
        var i, j := DecodeHandle(slot.environment.handle).slot, DecodeHandle(slot.target.handle).slot;
        assert leases.slots[if i < j then i else j].guest != leases.slots[if i < j then j else i].guest;
      }
    }

    /** The chain can be walked, and the journal has room for the headers of both
        blocks, the terminate vector and the result. */
    ghost predicate GlobalFits(result: seq<Patch>) reads this, arena, arena.machine, journal {
      && ChainStands() && arena.machine.context != 0xffff_ffff_ffff_ffff && slot.target.Leased? && slot.target.guest != 0
      && var headers := if slot.environment.Leased? then 2 else 1;
         Stageable([Patch(0, 0x88, slot.psp[0x0a..0x0e])] + (if slot.mode == LoadOnly then result else []),
                   |journal.records| + headers, |arena.machine.mem|, arena.machine.a20)
    }

    /** Plan both owner changes and stage them with the terminate vector and,
        for load-only, the result in the parameter block. */
    method StageGlobalMemory(name: seq<byte>, result: seq<Patch>) returns (status: LaunchStatus)
      requires Valid() && 0 < |name| <= 8
      modifies this`slot, journal`records, journal`state, arena.machine`mem, arena.machine`faults, arena`poisoned,
        observer`state, gate`held, gate`quarantined
      ensures Valid()
      ensures status == LaunchOk ==>
        && slot == old(slot).(state := GlobalMemoryReady, rebinds := slot.rebinds) && slot.rebinds.Rebinds?
        && RebindsMatch(slot) && runtime.generation < 0xffff_ffff_ffff_ffff
        && var vector := Patch(0, 0x88, slot.psp[0x0a..0x0e]);
           arena.machine.mem == AllWritten(HandedOver(old(arena.machine.mem), slot.environment, slot.target, name),
                                           [vector] + (if slot.mode == LoadOnly then result else []), arena.machine.a20)
      ensures old(slot.state) != GlobalStaged ==> status == LaunchInvalidState && slot == old(slot)
      ensures old(slot.state) == GlobalStaged && runtime.generation < 0xffff_ffff_ffff_ffff && old(GlobalFits(result)) ==>
        status == LaunchOk || arena.machine.faults > old(arena.machine.faults)
    {
      hide Launch.Objects, Launch.AccountedFor, AllWritten, HandedOver, RebindPatches, RebindsMatch, Shaped, Launch.Waits,
        LeaseTable.Holds, Launch.ChainStands, Stageable, Launch.GlobalFits;
      if slot.state == GlobalStaged {
        HasTarget(slot);
        RuntimeStands();
        StagedOnce();
      }
      if slot.state != GlobalStaged || slot.target.NoLease? { return LaunchInvalidState; }
      if runtime.PreflightExec(slot.parent) != RuntimeOk {
        Fail();
        return RuntimeChanged;
      }
      if GlobalFits(result) { GlobalRoom(result); }
      Stages(slot);
      Move(MemoryStaging);
      status := StageOwners(name, GlobalPatches(result));
    }

    /** Plan the owner changes and write them, then everything else. */
    method StageOwners(name: seq<byte>, others: seq<Patch>) returns (status: LaunchStatus)
      requires Valid() && 0 < |name| <= 8 && slot.state == MemoryStaging && slot.rebinds.NoRebinds? && slot.target.Leased?
      modifies this`slot, journal`records, journal`state, arena.machine`mem, arena.machine`faults, arena`poisoned,
        observer`state, gate`held, gate`quarantined
      ensures Valid()
      ensures status == LaunchOk ==>
        && slot == old(slot).(state := GlobalMemoryReady, rebinds := slot.rebinds) && slot.rebinds.Rebinds?
        && RebindsMatch(slot)
        && arena.machine.mem == AllWritten(HandedOver(old(arena.machine.mem), slot.environment, slot.target, name), others,
                                           arena.machine.a20)
      ensures old(journal.state) == Staging && old(ChainStands()) && old(slot).target.guest != 0
              && arena.machine.context != 0xffff_ffff_ffff_ffff
              && Stageable(others, |old(journal.records)| + (if old(slot).environment.Leased? then 2 else 1),
                           |old(arena.machine.mem)|, arena.machine.a20) ==>
        status == LaunchOk || arena.machine.faults > old(arena.machine.faults)
    {
      hide Launch.Objects, Launch.AccountedFor, AllWritten, HandedOver, RebindPatches, RebindsMatch, Shaped, Launch.Waits,
        LeaseTable.Holds, Launch.ChainStands, FarRange, Within;
      var planned, rebinds := PlanRebinds(name);
      if planned != LeaseOk {
        status := RebindFailed(planned);
        return;
      }
      var staged := StageBoth(RebindPatches(rebinds), others);
      if staged != JournalOk {
        status := StageFailed(staged);
        return;
      }
      Plans(slot, rebinds);
      Keep(slot.(state := GlobalMemoryReady, rebinds := rebinds));
      return LaunchOk;
    }

    /** One list of patches after the other. */
    method StageBoth(first: seq<Patch>, second: seq<Patch>) returns (status: JournalStatus)
      requires Objects() && Accounted() && !Unjournalled(slot.state) && |first| > 0
      modifies journal`records, journal`state, arena.machine`mem, arena.machine`faults
      ensures Objects() && (status != JournalPoisoned ==> Accounted())
      ensures status == JournalOk ==>
        && journal.state == Staging
        && arena.machine.mem == AllWritten(AllWritten(old(arena.machine.mem), first, arena.machine.a20), second,
                                           arena.machine.a20)
      ensures arena.machine.faults >= old(arena.machine.faults)
      ensures old(journal.state) == Staging
              && Stageable(first, |old(journal.records)|, |old(arena.machine.mem)|, arena.machine.a20)
              && Stageable(second, |old(journal.records)| + |first|, |old(arena.machine.mem)|, arena.machine.a20) ==>
        status == JournalOk || arena.machine.faults > old(arena.machine.faults)
    {
      hide Launch.Objects, Launch.AccountedFor, AllWritten, Stageable;
      status := StageAll(first);
      if status == JournalOk { status := StageAll(second); }
    }

    lemma {:induction false} GlobalRoom(result: seq<Patch>)
      requires GlobalFits(result)
      ensures Stageable(GlobalPatches(result), |journal.records| + (if slot.environment.Leased? then 2 else 1),
                        |arena.machine.mem|, arena.machine.a20)
      ensures |journal.records| + (if slot.environment.Leased? then 2 else 1) <= 16
      ensures ChainStands() && slot.target.Leased? && slot.target.guest != 0 && arena.machine.context != 0xffff_ffff_ffff_ffff
    {
      hide Launch.ChainStands, FarRange, Within;
    }

    lemma {:induction false} StagedOnce()
      requires Accounted() && slot.state == GlobalStaged
      ensures journal.state == Staging
    {
      hide LeaseTable.Valid, Registry.Valid, BatchTable.Valid, Arena.Sound, MemorySound, Held, LeasesHeld, FilesSound,
        HeldBlocks;
    }

    /** What a launch stages outside of the two headers. */
    function GlobalPatches(result: seq<Patch>): (patches: seq<Patch>) reads this {
      [TerminateVector(slot.psp)] + if slot.mode == LoadOnly then result else []
    }

    method RebindFailed(planned: LeaseStatus) returns (status: LaunchStatus)
      requires Valid() && slot.state == MemoryStaging && slot.rebinds.NoRebinds?
      modifies this`slot, journal`records, journal`state, arena.machine`mem, arena.machine`faults, arena`poisoned,
        observer`state, gate`held, gate`quarantined
      ensures Valid() && status != LaunchOk && arena.machine.faults >= old(arena.machine.faults)
    {
      hide Launch.Objects, Launch.AccountedFor, Shaped;
      if planned == LeaseMachineFault {
        status := StageFailed(JournalMachineFault);
      } else {
        status := Poison(true);
      }
    }

    // ---------- handing over to the backend ----------

    /** Stage the initial stack and fix the entry registers; if that fails the
        owner changes are forgotten with everything else that was staged. */
    method PrepareHandoff(entry: nat, stack: seq<Patch>) returns (status: LaunchStatus)
      requires Valid()
      modifies this`slot, journal`records, journal`state, arena.machine`mem, arena.machine`faults, arena`poisoned,
        observer`state, gate`held, gate`quarantined
      ensures Valid()
      ensures status == LaunchOk ==>
        && slot.target.Leased?
        && slot == old(slot).(state := HandoffReady, hasHandoff := true, handoff := Handoff(slot.target.guest, entry))
        && arena.machine.mem == AllWritten(old(arena.machine.mem), stack, arena.machine.a20)
      ensures slot.state == LaunchFailed && old(slot.state) != LaunchFailed ==>
        slot == old(slot).Unbound().(state := LaunchFailed)
      ensures old(slot.state) != GlobalMemoryReady || old(slot.mode) != Execute ==>
        status == LaunchInvalidState && slot == old(slot)
      ensures old(slot.state) == GlobalMemoryReady && old(slot.mode) == Execute
              && Stageable(stack, |old(journal.records)|, |old(arena.machine.mem)|, arena.machine.a20) ==>
        status == LaunchOk || arena.machine.faults > old(arena.machine.faults)
    {
      hide Launch.Objects, Launch.AccountedFor, AllWritten, Shaped, Stageable, Launch.Waits, LeaseTable.Holds;
      if slot.mode == Execute && slot.state == GlobalMemoryReady { HandsOff(slot, entry); }
      if slot.mode != Execute || slot.state != GlobalMemoryReady || slot.rebinds.NoRebinds? || slot.target.NoLease? {
        return LaunchInvalidState;
      }
      StagedWhilePlanned();
      Move(MemoryStaging);
      var staged := StageAll(stack);
      if staged != JournalOk {
        status := HandoffFailed(staged);
        return;
      }
      var next := slot.(state := HandoffReady, hasHandoff := true, handoff := Handoff(slot.target.guest, entry));
      Keep(next);
      return LaunchOk;
    }

    lemma {:induction false} StagedWhilePlanned()
      requires Accounted() && slot.rebinds.Rebinds?
      ensures journal.state == Staging
    {
      hide LeaseTable.Valid, Registry.Valid, BatchTable.Valid, Arena.Sound, MemorySound, Held, LeasesHeld, FilesSound,
        HeldBlocks;
    }

    /** Have the backend build the session. */
    method PrepareSession(prepare: PrepareAnswer) returns (status: SessionStatus, handle: nat)
      requires Objects() && Accounted() && !sessions.poisoned
      modifies sessions`slots, sessions`poisoned
      ensures Objects() && Accounted() && (status == SessionOk ==> Waits(handle, slot.handoff))
      ensures status == SessionOk <==> old(sessions.HasRoom()) && prepare == Built
      ensures status == SessionIsPoisoned <==> old(sessions.HasRoom()) && prepare == BadPrepare
      ensures status == SessionIsPoisoned ==> sessions.poisoned
    {
      hide LeaseTable.Valid, Registry.Valid, BatchTable.Valid, Runtime.Valid, Gate.Valid, Journal.Valid, Disciplined,
        Journal.Bound, Machine.Valid, Arena.Sound, MemorySound, Held, LeasesHeld, FilesSound, HeldBlocks, Shaped,
        Sessions.HasRoom, SessionHandleSlot, SessionHandleGeneration;
      status, handle := sessions.Prepare(slot.handoff, binding, prepare);
    }

    /** Have a dormant session built.  A rejection leaves the launch as it was;
        a malformed answer leaves it failed with everything still planned. */
    method PrepareBackend(prepare: PrepareAnswer) returns (status: LaunchStatus)
      requires Valid()
      modifies this`slot, sessions`slots, sessions`poisoned
      ensures Valid()
      ensures status == LaunchInvalidState <==>
        old(slot.mode != Execute || slot.state != HandoffReady || !slot.hasHandoff || slot.hasSession || sessions.poisoned)
      ensures status == LaunchOk ==> slot == old(slot).(state := BackendDormant, hasSession := true, session := slot.session)
      ensures status == BackendIsPoisoned ==> slot == old(slot).(state := LaunchFailed) && Stuck(slot) && sessions.poisoned
      ensures status != LaunchInvalidState ==>
        && (status == LaunchOk <==> old(sessions.HasRoom()) && prepare == Built)
        && (status == BackendIsPoisoned <==> old(sessions.HasRoom()) && prepare == BadPrepare)
      ensures status !in {LaunchOk, BackendIsPoisoned} ==> slot == old(slot) && status in {LaunchInvalidState, Unavailable}
      ensures old(slot.state) == LaunchFailed ==> slot == old(slot)
    {
      hide Launch.Objects, Launch.AccountedFor, Sessions.HasRoom, Launch.Waits, Shaped;
      if slot.mode != Execute || slot.state != HandoffReady || !slot.hasHandoff || slot.hasSession || sessions.poisoned {
        return LaunchInvalidState;
      }
      AsksBackend(slot, 0);
      StagedWhilePlanned();
      var prepared, handle := PrepareSession(prepare);
      if prepared == SessionOk {
        var next := slot.(state := BackendDormant, hasSession := true, session := handle);
        AsksBackend(slot, handle);
        Note(next);
        return LaunchOk;
      }
      if prepared == SessionIsPoisoned {
        Move(LaunchFailed);
        return BackendIsPoisoned;
      }
      return Unavailable;
    }

    // ---------- publication ----------

    function Plan(): (plan: SealPlan)
      requires slot.rebinds.Rebinds? && slot.target.Leased?
      reads this
    {
      SealPlan(slot.parent, slot.rebinds.environment, slot.rebinds.load, slot.batch, slot.target.guest)
    }

    /** Everything is with the child: memory sealed, both blocks and the files
        its own, the child current, the observers let in again. */
    ghost predicate Handed(target: Lease, environment: Lease, batch: nat) reads leases, batches, runtime, journal, observer {
      && target.Leased?
      && journal.state == Sealed && journal.records == [] && observer.state == ObserverReleased
      && runtime.currentPsp == target.guest && runtime.dta == FarPointer(target.guest, DEFAULT_DTA)
      && ChildHolds(leases.slots, target, target.guest) && ChildHolds(leases.slots, environment, target.guest)
      && 1 <= BatchHandleSlot(batch) <= |batches.slots| && batches.slots[BatchHandleSlot(batch) - 1].state == Committed
    }

    lemma {:induction false} GateOwned()
      requires Accounted()
      ensures gate.exclusive ==> observer.Owns(gate)
    {
      hide LeaseTable.Valid, Registry.Valid, BatchTable.Valid, Arena.Sound, MemorySound, Held, LeasesHeld, FilesSound,
        HeldBlocks;
    }

    /** The runtime is as it was at begin, so only its counter can stand in the
        way of a publication. */
    lemma {:induction false} RuntimeStands()
      requires Objects() && Accounted()
      ensures runtime.PreflightExec(slot.parent) == RuntimeOk <==> runtime.generation < 0xffff_ffff_ffff_ffff
      ensures runtime.PreflightExec(slot.parent) != RuntimeIsPoisoned
    {
      hide LeaseTable.Valid, Registry.Valid, BatchTable.Valid, Gate.Valid, Sessions.Valid, Journal.Valid, Journal.Bound,
        LaunchLog.Valid, Machine.Valid, Arena.Sound, MemorySound, Held, LeasesHeld, FilesSound, HeldBlocks, Shaped;
    }

    /** A plan that matches its lease passes, because the lease is still held. */
    lemma {:induction false} PlanPasses(plan: RebindPlan, lease: Lease)
      requires leases.Valid() && arena.Ready() == MemoryOk && ArenaUsable(arena) && slot.arena == KeyOf(arena)
      requires slot.target.Leased? && lease.Leased? && PlanMatches(slot, plan, lease)
      requires LeaseHeld(leases.slots, leases.identity, KeyOf(arena), lease, slot.parent.currentPsp)
      ensures leases.PreflightRebind(arena, plan) == LeaseOk && 0 < plan.handle != NO_HANDLE
    {
      hide Current, DecodeHandle;
      HandleBelow(lease.handle);
    }

    lemma {:induction false} PlansPass()
      requires Objects() && Accounted() && slot.rebinds.Rebinds? && RebindsMatch(slot)
      ensures leases.PreflightRebind(arena, slot.rebinds.load) == LeaseOk && 0 < slot.rebinds.load.handle != NO_HANDLE
      ensures slot.environment.Leased? ==>
        var plan := slot.rebinds.environment.rebind;
        leases.PreflightRebind(arena, plan) == LeaseOk && 0 < plan.handle != NO_HANDLE
          && plan.handle != slot.rebinds.load.handle
    {
      hide LeaseTable.Valid, Registry.Valid, BatchTable.Valid, Gate.Valid, Sessions.Valid, Journal.Valid, Journal.Bound,
        LaunchLog.Valid, Machine.Valid, Arena.Sound, MemorySound, Held, LeaseHeld, FilesSound, HeldBlocks, Runtime.Valid,
        Shaped, LeaseTable.PreflightRebind;
      PlanPasses(slot.rebinds.load, slot.target);
      if slot.environment.Leased? { PlanPasses(slot.rebinds.environment.rebind, slot.environment); }
    }

    lemma {:induction false} BatchReady()
      requires Objects() && Accounted() && slot.hasBatch
      ensures batches.PreflightCommit(slot.batch) == BatchOk && 0 < slot.batch != NO_HANDLE
    {
      hide LeaseTable.Valid, Registry.Valid, Gate.Valid, Sessions.Valid, Journal.Valid, Journal.Bound, LaunchLog.Valid,
        Machine.Valid, Arena.Sound, MemorySound, Held, LeasesHeld, HeldBlocks, Runtime.Valid, Shaped, EntriesName, Covered,
        DropAll, Closings, BatchHandleSlot, BatchHandleGeneration;
      BatchHandleBelow(slot.batch);
    }

    /** Whatever a launch in preparation has planned can be sealed. */
    lemma {:induction false} SealReady()
      requires Objects() && Accounted() && slot.rebinds.Rebinds? && RebindsMatch(slot) && slot.hasBatch
      ensures seal.Preflight(Plan()) == SealOk <==> runtime.generation < 0xffff_ffff_ffff_ffff
      ensures seal.Preflight(Plan()) in {SealOk, RuntimeNotReady}
    {
      hide LeaseTable.Valid, Registry.Valid, BatchTable.Valid, Gate.Valid, Sessions.Valid, LaunchLog.Valid, Machine.Valid,
        Arena.Sound, MemorySound, Held, LeasesHeld, FilesSound, HeldBlocks, Shaped, LeaseTable.PreflightRebind,
        BatchTable.PreflightCommit, Runtime.PreflightExec;
      RuntimeStands();
      PlansPass();
      BatchReady();
    }

    /** Commit the seal and note what is true at that moment. */
    method SealNow() returns (status: SealStatus, ghost record: LaunchRecord)
      requires Objects() && Accounted() && slot.rebinds.Rebinds? && RebindsMatch(slot) && slot.hasBatch
      modifies observer`state, gate`held, gate`quarantined, journal`state, journal`records, leases`slots, arena`poisoned,
        batches`slots, runtime
      ensures Objects()
      ensures status == SealOk ==>
        Handed(slot.target, slot.environment, slot.batch) && record.Complete() && record.childPsp == slot.target.guest
      ensures status != SealOk && status != SealPoisoned ==>
        && Accounted() && unchanged(observer) && unchanged(gate) && unchanged(journal) && unchanged(leases) && unchanged(arena)
        && unchanged(batches) && unchanged(runtime)
      ensures !(old(runtime.generation) < 0xffff_ffff_ffff_ffff) ==> status !in {SealOk, SealPoisoned}
      ensures old(runtime.generation) < 0xffff_ffff_ffff_ffff && gate.exclusive ==> status == SealOk
    {
      hide LeaseTable.Valid, Registry.Valid, Runtime.Valid, Gate.Valid, Sessions.Valid, Journal.Valid, Arena.Sound,
        MemorySound, Held, LaunchLog.Valid, Machine.Valid, SealServices.PublishedSlots, SealServices.Preflight,
        LeaseTable.ResolveActive, FilesSound, BatchTable.ResolveHandle, DecodeHandle, HeldBlocks, BatchHandleSlot,
        BatchHandleGeneration, Shaped;
      SealReady();
      GateOwned();
      var plan := Plan();
      ghost var i, j, k := 0, 0, 0;
      if seal.Preflight(plan) == SealOk {
        seal.PublishedMeaning(plan);
        j := leases.ResolveActive(arena, plan.load.handle, plan.load.value.expected).index;
        i := if plan.environment.NoEnvironment? then j
             else leases.ResolveActive(arena, plan.environment.rebind.handle, plan.environment.rebind.value.expected).index;
        k := batches.ResolveHandle(plan.batch).index;
      }
      status := seal.Commit(plan);
      if status == SealOk {
        record := LaunchRecord(journal.state, plan.environment.WithEnvironment?, leases.slots[i], leases.slots[j],
                               batches.slots[k].state, runtime.currentPsp, plan.childPsp);
      } else {
        record := LaunchRecord(journal.state, false, NO_LEASE_SLOT, NO_LEASE_SLOT, BatchFree, runtime.currentPsp,
                               plan.childPsp);
      }
    }

    /** Make the session runnable and log what made that possible. */
    method PublishSession(ghost record: LaunchRecord) returns (status: LaunchStatus)
      requires Objects() && Shaped(slot.(state := LaunchPublished))
      requires sessions.PreflightPublish(slot.session, slot.handoff, binding) == SessionOk
      requires record.Complete() && record.childPsp == slot.handoff.childPsp
      modifies this`slot, sessions`slots, sessions`published, log
      ensures Valid() && status == LaunchOk && slot == old(slot).(state := LaunchPublished)
      ensures Started(old(sessions.FindSlot(slot.session)).index)
    {
      hide LeaseTable.Valid, Registry.Valid, BatchTable.Valid, Runtime.Valid, Gate.Valid, Journal.Valid, Machine.Valid,
        Disciplined, SessionHandleSlot, SessionHandleGeneration, Shaped, Launch.AccountedFor, LeaseTable.Holds;
      ghost var index := sessions.FindSlot(slot.session).index;
      ghost var key := SessionKey(index, sessions.slots[index].generation);
      var published := sessions.Publish(slot.session, slot.handoff, binding);
      if published != SessionOk { assert false; }
      log.records := log.records[key := record];
      slot := slot.(state := LaunchPublished);
      return LaunchOk;
    }

    lemma {:induction false} SessionsValid()
      requires Objects()
      ensures sessions.Valid()
    {
    }

    /** The session that waits can be made runnable. */
    lemma {:induction false} SessionReady()
      requires sessions.Valid() && !sessions.poisoned && Waits(slot.session, slot.handoff)
      ensures sessions.PreflightPublish(slot.session, slot.handoff, binding) == SessionOk
    {
      hide Disciplined;
    }

    /** Publish a launch that will run: seal, then make its session runnable. */
    method SealExecute() returns (status: LaunchStatus)
      requires Valid()
      modifies this`slot, observer`state, gate`held, gate`quarantined, journal`state, journal`records, leases`slots,
        arena`poisoned, batches`slots, runtime, sessions`slots, sessions`published, log
      ensures Valid()
      ensures status == LaunchOk ==>
        slot == old(slot).(state := LaunchPublished) && Handed(slot.target, slot.environment, slot.batch)
      ensures status == LaunchOk ==> Started(old(sessions.FindSlot(slot.session)).index)
      ensures status in {PublicationNotReady, LaunchInvalidState, BackendIsPoisoned} ==>
        && slot == old(slot) && unchanged(observer) && unchanged(gate) && unchanged(journal) && unchanged(leases)
        && unchanged(batches) && unchanged(runtime) && unchanged(sessions) && unchanged(log)
      ensures gate.exclusive ==>
        (status == LaunchOk <==>
           old(slot.state) == BackendDormant && !old(sessions.poisoned) && old(runtime.generation) < 0xffff_ffff_ffff_ffff)
      ensures old(slot.state) == LaunchFailed ==> slot == old(slot)
    {
      hide Launch.Objects, Launch.AccountedFor, Launch.Waits, Launch.Started, Sessions.FindSlot, Launch.Handed, RebindsMatch,
        Shaped, LeaseTable.Holds;
      if slot.state == BackendDormant { Publishes(slot); }
      if slot.mode != Execute || slot.state != BackendDormant || !slot.hasSession || !slot.hasBatch || slot.rebinds.NoRebinds?
         || slot.target.NoLease? {
        return LaunchInvalidState;
      }
      SessionsValid();
      if !sessions.poisoned { SessionReady(); }
      var ready := sessions.PreflightPublish(slot.session, slot.handoff, binding);
      if ready != SessionOk { return if ready == SessionIsPoisoned then BackendIsPoisoned else PublicationNotReady; }
      status := SealDormant();
    }

    /** The session of that slot is runnable and logged with its child. */
    ghost predicate Started(index: nat) reads this, sessions, log {
      && index < |sessions.slots| && sessions.slots[index].state == Runnable
      && log.Launched(sessions, SessionKey(index, sessions.slots[index].generation))
    }

    method SealDormant() returns (status: LaunchStatus)
      requires Valid() && slot.state == BackendDormant
      requires sessions.PreflightPublish(slot.session, slot.handoff, binding) == SessionOk
      modifies this`slot, observer`state, gate`held, gate`quarantined, journal`state, journal`records, leases`slots,
        arena`poisoned, batches`slots, runtime, sessions`slots, sessions`published, log
      ensures Valid() && status in {LaunchOk, PublicationNotReady, LaunchIsPoisoned}
      ensures status == LaunchOk ==>
        && slot == old(slot).(state := LaunchPublished) && Handed(slot.target, slot.environment, slot.batch)
        && Started(old(sessions.FindSlot(slot.session)).index)
      ensures status == PublicationNotReady ==>
        && slot == old(slot) && unchanged(observer) && unchanged(gate) && unchanged(journal) && unchanged(leases)
        && unchanged(batches) && unchanged(runtime) && unchanged(sessions) && unchanged(log)
      ensures gate.exclusive ==> (status == LaunchOk <==> old(runtime.generation) < 0xffff_ffff_ffff_ffff)
    {
      hide Launch.Objects, Launch.AccountedFor, Launch.Waits, Launch.Started, Sessions.FindSlot, Launch.Handed, RebindsMatch,
        Shaped, LeaseTable.Holds, Sessions.PreflightPublish;
      Publishes(slot);
      var sealing;
      ghost var record;
      sealing, record := SealNow();
      if sealing == SealPoisoned {
        status := Poison(true);
        return;
      }
      if sealing != SealOk { return PublicationNotReady; }
      status := PublishSession(record);
    }

    /** Publish a launch that only loads. */
    method SealLoadOnly() returns (status: LaunchStatus)
      requires Valid()
      modifies this`slot, observer`state, gate`held, gate`quarantined, journal`state, journal`records, leases`slots,
        arena`poisoned, batches`slots, runtime
      ensures Valid()
      ensures status == LaunchOk ==>
        slot == old(slot).(state := LaunchPublished) && Handed(slot.target, slot.environment, slot.batch)
      ensures status in {PublicationNotReady, LaunchInvalidState} ==>
        && slot == old(slot) && unchanged(observer) && unchanged(gate) && unchanged(journal) && unchanged(leases)
        && unchanged(batches) && unchanged(runtime)
      ensures gate.exclusive ==>
        (status == LaunchOk <==>
           && old(slot.mode) == LoadOnly && old(slot.state) == GlobalMemoryReady
           && old(runtime.generation) < 0xffff_ffff_ffff_ffff)
      ensures old(slot.state) == LaunchFailed ==> slot == old(slot)
    {
      hide Launch.Objects, Launch.AccountedFor, RebindsMatch, Shaped, Launch.Handed, Launch.Waits, LeaseTable.Holds;
      if slot.mode == LoadOnly && slot.state == GlobalMemoryReady { Publishes(slot); }
      if slot.mode != LoadOnly || slot.state != GlobalMemoryReady || !slot.hasBatch || slot.rebinds.NoRebinds?
         || slot.target.NoLease? {
        return LaunchInvalidState;
      }
      var sealing;
      ghost var record;
      sealing, record := SealNow();
      if sealing == SealPoisoned {
        status := Poison(true);
        return;
      }
      if sealing != SealOk { return PublicationNotReady; }
      Publish();
      return LaunchOk;
    }

    method Publish()
      requires Objects() && Shaped(slot.(state := LaunchPublished))
      modifies this`slot
      ensures Valid() && slot == old(slot).(state := LaunchPublished)
    {
      hide LeaseTable.Valid, Registry.Valid, BatchTable.Valid, Runtime.Valid, Gate.Valid, Sessions.Valid, Journal.Valid,
        Journal.Bound, LaunchLog.Valid, Machine.Valid, Launch.AccountedFor, Launch.Waits, LeaseTable.Holds, Shaped;
      slot := slot.(state := LaunchPublished);
    }

    /** Let a published session run until its next event.  What the guest program
        does to memory meanwhile is its own affair. */
    method RunSession(handle: nat, run: RunAnswer) returns (status: SessionStatus, exited: bool)
      requires Valid()
      modifies sessions`slots, sessions`poisoned, sessions`ran
      ensures Valid()
      ensures sessions.ran != old(sessions.ran) ==>
        var index := old(sessions.FindSlot(handle)).index;
        && index < |old(sessions.slots)|
        && var key := SessionKey(index, old(sessions.slots)[index].generation);
           && sessions.ran == old(sessions.ran) + [key] && log.Launched(sessions, key)
           && log.records[key].childPsp == old(sessions.slots)[index].handoff.childPsp
      ensures status == SessionOk ==> sessions.ran != old(sessions.ran)
    {
      hide LeaseTable.Valid, Registry.Valid, BatchTable.Valid, Runtime.Valid, Gate.Valid, Journal.Valid, Disciplined,
        Machine.Valid, Launch.AccountedFor, SessionHandleSlot, SessionHandleGeneration, Shaped, LeaseTable.Holds;
      status, exited := sessions.RunUntilEvent(handle, binding, run);
    }

    // ---------- giving up ----------

    /** Stop and retire the session. */
    method AbortBackend(release: ReleaseAnswer) returns (status: LaunchStatus)
      requires Valid() && InPreparation(slot.state) && slot.hasSession && !Stuck(slot)
      modifies this`slot, sessions`slots, sessions`poisoned
      ensures Objects() && Accounted()
      ensures status == if old(sessions.poisoned) then BackendIsPoisoned
        else match release case LetGo => LaunchOk case HeldOn => Retained case BadRelease => BackendIsPoisoned
      ensures status == Retained ==> Valid() && slot == old(slot)
      ensures status != Retained ==> slot == old(slot).(state := Aborting, hasSession := false, session := 0)
    {
      hide Launch.Objects, Launch.AccountedFor, Launch.Waits, Shaped;
      GivesUp(slot);
      status := StopSession(release);
      if status == Retained { return; }
      StagedWhilePlanned();
      Note(slot.(state := Aborting, hasSession := false, session := 0));
    }

    method StopSession(release: ReleaseAnswer) returns (status: LaunchStatus)
      requires Valid() && InPreparation(slot.state) && slot.hasSession
      modifies sessions`slots, sessions`poisoned
      ensures Objects() && Accounted() && (status == Retained ==> Valid())
      ensures status == if old(sessions.poisoned) then BackendIsPoisoned
        else match release case LetGo => LaunchOk case HeldOn => Retained case BadRelease => BackendIsPoisoned
    {
      hide Launch.AccountedFor, LeaseTable.Valid, Registry.Valid, BatchTable.Valid, Runtime.Valid, Gate.Valid,
        Journal.Valid, Disciplined, Machine.Valid, SessionHandleSlot, SessionHandleGeneration, Shaped, LeaseTable.Holds;
      var stopped := sessions.Stop(slot.session, binding, release);
      if stopped == ReleaseRetained { return Retained; }
      if stopped == SessionIsPoisoned { return BackendIsPoisoned; }
      var retired := sessions.Retire(slot.session);
      return LaunchOk;
    }

    /** Undo the journal unless a failed step did so already. */
    method AbortMemory() returns (ok: bool)
      requires Objects() && Accounted() && slot.state == Aborting && !slot.hasSession && Coherent(slot)
      requires slot.rebinds.NoRebinds? ==> !slot.hasHandoff
      modifies this`slot, journal`records, journal`state, arena.machine`mem, arena.machine`faults
      ensures Objects()
      ensures ok ==>
        && Accounted() && journal.records == [] && GivingUp(slot)
        && slot == old(slot).(rebinds := slot.rebinds, hasHandoff := slot.hasHandoff, handoff := slot.handoff,
                              hasSession := slot.hasSession, session := slot.session)
      ensures arena.machine.faults >= old(arena.machine.faults)
      ensures ok || arena.machine.faults > old(arena.machine.faults)
    {
      hide LeaseTable.Valid, Registry.Valid, BatchTable.Valid, Runtime.Valid, Gate.Valid, Sessions.Valid,
        LaunchLog.Valid, Machine.Valid, Arena.Sound, MemorySound, Held, LeasesHeld, FilesSound, HeldBlocks, WellFormed, Fit;
      if journal.state != Staging { return true; }
      Note(slot.Unbound());
      ok := UndoJournal();
    }

    /** Give the inherited references back; this cannot fail. */
    method AbortInheritance()
      requires Objects() && Accounted() && GivingUp(slot) && slot.hasBatch
      modifies this`slot, batches`slots, registry`slots, registry`closed, registry`closings, registry`failures
      ensures Objects() && Accounted() && slot == old(slot).(hasBatch := false) && GivingUp(slot)
      ensures registry.slots == start.sft
      ensures registry.closings == old(registry.closings) && registry.failures == old(registry.failures)
    {
      hide LeaseTable.Valid, Runtime.Valid, Gate.Valid, Sessions.Valid, Journal.Valid, Journal.Bound, LaunchLog.Valid,
        Machine.Valid, Arena.Sound, MemorySound, Held, LeasesHeld, HeldBlocks, Lifetimes, EntriesName, Covered, DropAll,
        Closings, Sfns, BatchHandleSlot, BatchHandleGeneration, Coherent;
      WithoutBatch(slot);
      var aborted := batches.Abort(slot.batch, registry, registry.context);
      if aborted != BatchOk { assert false; }
      var retired := batches.Retire(slot.batch);
      if retired != BatchOk { assert false; }
      slot := slot.(hasBatch := false);
    }

    /** Free a leased block again. */
    method FreeBlock(lease: Lease, other: Lease) returns (status: LeaseStatus)
      requires Objects() && Accounted() && journal.records == [] && lease.Leased?
      requires LeasesHeld(leases.slots, leases.identity, KeyOf(arena), other, lease, slot.parent.currentPsp)
      requires slot.Held() == HeldBlocks(other, lease, slot.parent.currentPsp)
      modifies leases`slots, arena.machine`mem, arena.machine`faults, arena`poisoned, arena`trace, arena`blocks
      ensures Objects()
      ensures status == LeaseOk ==> AccountedFor(other, NoLease) && journal.records == []
      ensures status != LeaseOk && !arena.poisoned ==> Accounted() && journal.records == []
      ensures arena.machine.faults >= old(arena.machine.faults)
      ensures status == LeaseOk || arena.machine.faults > old(arena.machine.faults)
      ensures status in {LeaseOk, LeaseMachineFault, LeaseMachinePoisoned}
        && (status == LeaseMachinePoisoned ==> arena.poisoned)
      ensures arena.poisoned ==> arena.machine.faults >= old(arena.machine.faults) + 2
    {
      hide Registry.Valid, BatchTable.Valid, Runtime.Valid, Gate.Valid, Sessions.Valid, Journal.Valid, LaunchLog.Valid,
        MemorySound, Held, FilesSound, IsChain, AllTile, Current, DecodeHandle, Lost, SameOutsideBlock, Undo, Owned, HeldBlocks;
      ghost var owner := slot.parent.currentPsp;
      ghost var m0, b0, s0, held := arena.machine.mem, arena.blocks, leases.slots, slot.Held();
      ghost var b := BlockHeld(lease.guest, lease.paragraphs, owner);
      MemoryPlain(start, m0, journal.a20, arena.head, arena.end, b0, held);
      ghost var k;
      status, k := leases.Finish(arena, lease.handle, slot.parent.currentPsp, true);
      if status != LeaseOk { return; }
      HeldWithout(s0, leases.identity, KeyOf(arena), other, lease, owner, b0);
      MemoryLose(start, m0, journal.a20, arena.head, arena.end, b0, held, arena.machine.mem, arena.blocks, b);
      LeaseEnds(s0, leases.identity, KeyOf(arena), lease, other, owner, leases.slots[DecodeHandle(lease.handle).slot]);
    }

    lemma {:induction false} LeasesAccounted()
      requires Accounted()
      ensures LeasesHeld(leases.slots, leases.identity, KeyOf(arena), slot.environment, slot.target, slot.parent.currentPsp)
    {
      hide LeaseTable.Valid, Registry.Valid, BatchTable.Valid, Arena.Sound, MemorySound, Held, LeasesHeld, FilesSound,
        HeldBlocks;
    }

    /** Free the load block, then the environment; a plain machine fault keeps
        the lease for another try. */
    method AbortTarget() returns (status: LaunchStatus)
      requires Objects() && Accounted() && GivingUp(slot) && journal.records == [] && slot.target.Leased?
      modifies this`slot, leases`slots, arena.machine`mem, arena.machine`faults, arena`poisoned, arena`trace, arena`blocks,
        observer`state, gate`held, gate`quarantined
      ensures Objects() && status in {LaunchOk, Retained, LaunchIsPoisoned} && (status != LaunchOk ==> Valid())
      ensures status == LaunchOk ==>
        && Accounted() && slot == old(slot).(target := NoLease, resident := NoResident) && journal.records == []
        && GivingUp(slot)
      ensures status == Retained ==> slot == old(slot)
      ensures arena.machine.faults >= old(arena.machine.faults)
      ensures status == LaunchOk || arena.machine.faults > old(arena.machine.faults)
      ensures status == LaunchIsPoisoned ==> arena.machine.faults >= old(arena.machine.faults) + 2
    {
      hide Launch.Objects, Launch.AccountedFor, LeasesHeld, HeldBlocks, Shaped, Launch.Waits, LeaseTable.Holds;
      LeasesAccounted();
      GivingUpIsShaped(slot);
      var freed := FreeBlock(slot.target, slot.environment);
      if freed == LeaseOk {
        Adopt(slot.environment, NoLease);
        return LaunchOk;
      }
      if freed != LeaseMachineFault || arena.poisoned {
        status := Poison(true);
        return;
      }
      return Retained;
    }

    method AbortEnvironment() returns (status: LaunchStatus)
      requires Objects() && Accounted() && GivingUp(slot) && journal.records == []
      requires slot.environment.Leased? && slot.target == NoLease
      modifies this`slot, leases`slots, arena.machine`mem, arena.machine`faults, arena`poisoned, arena`trace, arena`blocks,
        observer`state, gate`held, gate`quarantined
      ensures Objects() && status in {LaunchOk, Retained, LaunchIsPoisoned} && (status != LaunchOk ==> Valid())
      ensures status == LaunchOk ==>
        Accounted() && slot == old(slot).(environment := NoLease) && journal.records == [] && GivingUp(slot)
      ensures status == Retained ==> slot == old(slot)
      ensures arena.machine.faults >= old(arena.machine.faults)
      ensures status == LaunchOk || arena.machine.faults > old(arena.machine.faults)
      ensures status == LaunchIsPoisoned ==> arena.machine.faults >= old(arena.machine.faults) + 2
    {
      hide Launch.Objects, Launch.AccountedFor, LeasesHeld, BlockOfLease, Shaped, Launch.Waits, LeaseTable.Holds;
      LeasesAccounted();
      GivingUpIsShaped(slot);
      LeasesSwap(leases.slots, leases.identity, KeyOf(arena), slot.environment, NoLease, slot.parent.currentPsp);
      assert slot.Held() == HeldBlocks(NoLease, slot.environment, slot.parent.currentPsp);
      var freed := FreeBlock(slot.environment, NoLease);
      if freed == LeaseOk {
        Adopt(NoLease, NoLease);
        return LaunchOk;
      }
      if freed != LeaseMachineFault || arena.poisoned {
        status := Poison(true);
        return;
      }
      return Retained;
    }

    method AbortBlocks() returns (status: LaunchStatus)
      requires Objects() && Accounted() && GivingUp(slot) && journal.records == []
      modifies this`slot, leases`slots, arena.machine`mem, arena.machine`faults, arena`poisoned, arena`trace, arena`blocks,
        observer`state, gate`held, gate`quarantined
      ensures Objects() && status in {LaunchOk, Retained, LaunchIsPoisoned} && (status != LaunchOk ==> Valid())
      ensures status == LaunchOk ==>
        && Accounted() && GivingUp(slot) && journal.records == [] && slot.target == NoLease && slot.environment == NoLease
        && slot.hasBatch == old(slot.hasBatch)
      ensures arena.machine.faults >= old(arena.machine.faults)
      ensures status == LaunchOk || arena.machine.faults > old(arena.machine.faults)
    {
      hide Launch.Objects, Launch.AccountedFor, Shaped, Launch.Waits, LeaseTable.Holds, GivingUp;
      status := LaunchOk;
      if slot.target.Leased? {
        status := AbortTarget();
        if status != LaunchOk { return; }
      }
      if slot.environment.Leased? {
        status := AbortEnvironment();
      }
    }

    /** Close the executable if need be and give its lease back. */
    method AbortFile() returns (status: LaunchStatus)
      requires Objects() && Accounted() && GivingUp(slot) && slot.hasFile
      requires slot.environment == NoLease && slot.target == NoLease && !slot.hasBatch
      modifies this`slot, file, arena`poisoned, observer`state, gate`held, gate`quarantined
      ensures Objects() && status in {LaunchOk, Retained, LaunchIsPoisoned} && (status != LaunchOk ==> Valid())
      ensures status == LaunchOk ==> Accounted() && slot == old(slot).(hasFile := false) && GivingUp(slot)
      ensures file.failures >= old(file.failures)
      ensures status == Retained ==> slot == old(slot)
      ensures status == LaunchOk || file.failures > old(file.failures)
    {
      hide LeaseTable.Valid, Registry.Valid, BatchTable.Valid, Runtime.Valid, Gate.Valid, Sessions.Valid, Journal.Valid,
        Journal.Bound, LaunchLog.Valid, Machine.Valid, Arena.Sound, MemorySound, Held, LeasesHeld, FilesSound, HeldBlocks,
        Shaped, Launch.Waits, LeaseTable.Holds;
      GivingUpIsShaped(slot);
      var closed := file.Close();
      if closed == FileKept { return Retained; }
      if closed != FileDone {
        status := Poison(false);
        return;
      }
      var retired := file.Retire();
      if retired != FileDone { assert false; }
      slot := slot.(hasFile := false);
      return LaunchOk;
    }

    /** Nothing of the launch is left in memory, files and process. */
    ghost predicate GivenBack() reads this, arena, arena.machine, registry, runtime, journal, file {
      && Owned(arena.blocks) == Owned(start.blocks) && SameOutsideFree(start.mem, arena.machine.mem, start.blocks)
      && IsChain(arena.machine.mem, arena.head, arena.end, arena.blocks)
      && registry.slots == start.sft && runtime.Now() == start.runtime
      && file.state == FileVacant && journal.records == []
    }

    /** No trace of the launch: allocated blocks, file counts, every byte outside
        of memory that was free, and the process are as they were at begin; the
        file lease is vacant and the observers are let in again. */
    ghost predicate Restored() reads this, arena, arena.machine, registry, runtime, journal, observer, file {
      GivenBack() && observer.state == ObserverReleased
    }

    lemma {:induction false} NothingHeld()
      requires Objects() && Accounted() && journal.records == []
      requires slot.environment == NoLease && slot.target == NoLease && !slot.hasBatch && !slot.hasFile
      ensures GivenBack() && leases.Holds(arena)
      ensures observer.ValidateHeld(gate, gateContext) == ObserverOk && (gate.exclusive ==> observer.Owns(gate)) && gate.Valid()
    {
      hide LeaseTable.Valid, Registry.Valid, BatchTable.Valid, Runtime.Valid, Sessions.Valid, Journal.Valid, Shaped,
        LaunchLog.Valid, Arena.Sound, MemorySound, Held, LeasesHeld, IsChain, SameOutsideFree, Owned;
      assert slot.Held() == {};
      MemoryRestored(start, arena.machine.mem, journal.a20, arena.head, arena.end, arena.blocks);
      MemoryPlain(start, arena.machine.mem, journal.a20, arena.head, arena.end, arena.blocks, {});
    }

    /** Everything is given back: let the observers in. */
    method FinishAbort() returns (status: LaunchStatus)
      requires Objects() && Accounted() && GivingUp(slot) && journal.records == []
      requires slot.environment == NoLease && slot.target == NoLease && !slot.hasBatch && !slot.hasFile
      modifies this`slot, observer`state, gate`held, gate`quarantined, arena`poisoned
      ensures Valid() && status in {LaunchOk, LaunchIsPoisoned}
      ensures status == LaunchOk ==> slot.state == LaunchAborted && Restored()
      ensures gate.exclusive ==> status == LaunchOk
    {
      hide Launch.AccountedFor, LeaseTable.Valid, Registry.Valid, BatchTable.Valid, Runtime.Valid, Gate.Valid, Sessions.Valid,
        Journal.Valid, LaunchLog.Valid, Machine.Valid, IsChain, SameOutsideFree, Owned, Shaped, Launch.Waits, LeaseTable.Holds;
      NothingHeld();
      GivingUpIsShaped(slot);
      var released := observer.Release(gate, gateContext);
      if released != ObserverOk {
        status := Poison(false);
        return;
      }
      slot := slot.(state := LaunchAborted);
      return LaunchOk;
    }

    /** Give the launch up from any of its stable states.  Memory is undone before
        the leases are freed, because a journalled header names another owner.
        Without faults the answer is fixed, and only the stuck record is refused. */
    method Abort(release: ReleaseAnswer) returns (status: LaunchStatus)
      requires Valid()
      modifies this`slot, sessions`slots, sessions`poisoned, journal`records, journal`state, batches`slots, registry`slots,
        registry`closed, registry`closings, registry`failures, leases`slots, arena.machine`mem, arena.machine`faults,
        arena`poisoned, arena`trace, arena`blocks, file, observer`state, gate`held, gate`quarantined
      ensures Valid()
      ensures status in {LaunchOk, BackendIsPoisoned} && old(slot.state) != LaunchAborted ==>
        slot.state == LaunchAborted && Restored()
      ensures old(slot.state) in {NotBegun, MemoryStaging, LaunchAborted, LaunchPublished,
                                  LaunchPoisoned} || old(Stuck(slot)) ==>
        && status == (if old(slot.state) == LaunchPoisoned then LaunchIsPoisoned
                      else if old(slot.state) == LaunchAborted then LaunchOk else LaunchInvalidState)
        && unchanged(this) && unchanged(arena) && unchanged(arena.machine) && unchanged(leases) && unchanged(registry)
        && unchanged(batches) && unchanged(journal) && unchanged(sessions) && unchanged(observer) && unchanged(gate)
        && unchanged(file)
      ensures old(slot.state) !in {NotBegun, MemoryStaging, LaunchAborted, LaunchPublished, LaunchPoisoned} && gate.exclusive
              && arena.machine.faults == old(arena.machine.faults) && file.failures == old(file.failures) ==>
        && status == AbortOutcome(old(slot), old(sessions.poisoned), release)
        && (!old(slot.hasSession) ==>
            (status == LaunchOk <==> !(old(slot.state) == LaunchFailed && old(slot.rebinds).Rebinds?)))
    {
      hide Launch.Objects, Launch.AccountedFor, Launch.Restored, Launch.Waits, Shaped, Encoded, LeaseTable.Holds;
      if slot.state == LaunchPoisoned { return LaunchIsPoisoned; }
      RefusedExactly(slot);
      if !Encoded(slot) { return LaunchInvalidState; }
      if slot.state == LaunchAborted { return LaunchOk; }
      if !CanAbort(slot.state) { return LaunchInvalidState; }
      status := GiveUp(release);
    }

    /** Give up a launch whose record is in order. */
    method GiveUp(release: ReleaseAnswer) returns (status: LaunchStatus)
      requires Valid() && InPreparation(slot.state) && !Stuck(slot)
      modifies this`slot, sessions`slots, sessions`poisoned, journal`records, journal`state, batches`slots, registry`slots,
        registry`closed, registry`closings, registry`failures, leases`slots, arena.machine`mem, arena.machine`faults,
        arena`poisoned, arena`trace, arena`blocks, file, observer`state, gate`held, gate`quarantined
      ensures Valid()
      ensures status in {LaunchOk, BackendIsPoisoned} ==> slot.state == LaunchAborted && Restored()
      ensures gate.exclusive && arena.machine.faults == old(arena.machine.faults) && file.failures == old(file.failures) ==>
        status == AbortOutcome(old(slot), old(sessions.poisoned), release)
    {
      hide Launch.Objects, Launch.AccountedFor, Launch.Restored, Launch.Waits, Shaped, Coherent, Encoded, LeaseTable.Holds;
      GivesUp(slot);
      var outcome := LaunchOk;
      if slot.hasSession {
        outcome := AbortBackend(release);
        if outcome == Retained { return Retained; }
      } else {
        if slot.rebinds.Rebinds? { StagedWhilePlanned(); }
        Note(slot.(state := Aborting, session := 0));
      }
      status := AbortHoldings();
      if status != LaunchOk { return; }
      return outcome;
    }

    /** Everything but the backend, each resource only if it is held. */
    method AbortHoldings() returns (status: LaunchStatus)
      requires Objects() && Accounted() && slot.state == Aborting && !slot.hasSession && Coherent(slot)
      requires slot.rebinds.NoRebinds? ==> !slot.hasHandoff
      modifies this`slot, journal`records, journal`state, batches`slots, registry`slots, registry`closed, registry`closings,
        registry`failures, leases`slots, arena.machine`mem, arena.machine`faults, arena`poisoned, arena`trace, arena`blocks,
        file, observer`state, gate`held, gate`quarantined
      ensures Valid() && status in {LaunchOk, Retained, LaunchIsPoisoned}
      ensures status == LaunchOk ==> slot.state == LaunchAborted && Restored()
      ensures arena.machine.faults >= old(arena.machine.faults) && file.failures >= old(file.failures)
      ensures gate.exclusive ==>
        status == LaunchOk || arena.machine.faults > old(arena.machine.faults) || file.failures > old(file.failures)
    {
      hide Launch.Objects, Launch.AccountedFor, Launch.Restored, Shaped, Launch.Waits, LeaseTable.Holds,
        Coherent, GivingUp;
      var undone := AbortMemory();
      if !undone {
        status := Poison(true);
        return;
      }
      if slot.hasBatch { AbortInheritance(); }
      status := AbortBlocks();
      if status != LaunchOk { return; }
      if slot.hasFile {
        status := AbortFile();
        if status != LaunchOk { return; }
      }
      status := FinishAbort();
    }

    /** Make room for another launch: exactly an aborted one gives its slot up. */
    method Retire() returns (status: LaunchStatus)
      requires Valid()
      modifies this`slot, journal, observer
      ensures Valid()
      ensures status == LaunchOk <==> old(slot.state) == LaunchAborted
      ensures status == LaunchOk ==> slot == EmptySlot()
      ensures status != LaunchOk ==>
        status == LaunchInvalidState && unchanged(this) && unchanged(journal) && unchanged(observer)
    {
      hide LeaseTable.Valid, Registry.Valid, BatchTable.Valid, Runtime.Valid, Gate.Valid, Sessions.Valid, Journal.Valid,
        LaunchLog.Valid, Machine.Valid, Launch.AccountedFor, Launch.Waits, LeaseTable.Holds;
      if slot.state != LaunchAborted { return LaunchInvalidState; }
      journal.Construct();
      observer.Construct();
      slot := EmptySlot();
      return LaunchOk;
    }

    // ---------- whole runs ----------

    /** One call that takes the launch forward, or runs a session. */
    method Perform(step: Step)
      requires Valid()
      modifies this`slot, sessions, journal`records, journal`state, batches`slots, registry`slots, registry`closed,
        registry`closings, registry`failures, leases, arena.machine`mem, arena.machine`faults, arena`poisoned, arena`trace,
        arena`blocks, file, observer`state, gate`held, gate`quarantined, runtime, log, reader`failures
      ensures Valid()
      ensures old(slot.state) == LaunchFailed ==> slot == old(slot)
    {
      hide Launch.Objects, Launch.AccountedFor, Launch.Restored, Launch.Waits, Launch.Handed, ImageIn, Sessions.FindSlot,
        Sessions.HasRoom, LaunchLog.Launched, Shaped, AllWritten, Written, Relocator.Progress, SameOutsideData, RebindPatches,
        PlanMatches, Plannable, LeaseTable.Holds;
      var status;
      match step
      case OpenStep => status := OpenFile();
      case ReadStep(psp, outcome) => status := ReadingStep(psp, outcome);
      case EnvironmentStep(wanted, paragraphs, built) => status := PrepareEnvironment(wanted, paragraphs, built);
      case TargetStep(paragraphs, fits) => status := PrepareTarget(paragraphs, fits);
      case LoadStep(image) => status := LoadResident(image);
      case RelocateStep(table, count) => status := Relocate(table, count);
      case CloseStep => status := CloseFile();
      case InheritStep(jft) => if |jft| == JFT_ENTRIES { status := PrepareInheritance(jft); }
      case ProcessMemoryStep(words) => status := StageProcessMemory(words);
      case GlobalMemoryStep(name, result) => if 0 < |name| <= 8 { status := StageGlobalMemory(name, result); }
      case HandoffStep(entry, stack) => status := PrepareHandoff(entry, stack);
      case BackendStep(prepare) => status := PrepareBackend(prepare);
      case SealStep => if slot.mode == Execute { status := SealExecute(); } else { status := SealLoadOnly(); }
      case RunStep(handle, run) => var outcome, exited := RunSession(handle, run);
    }

    /** One call of any kind.  A failed launch only leaves that state by a
        successful or poisoned abort, and a stuck one not even so. */
    method Serve(call: Call)
      requires Valid()
      modifies this, sessions, journal, batches`slots, registry`slots, registry`closed, registry`closings,
        registry`failures, leases, arena.machine`mem, arena.machine`faults, arena`poisoned, arena`trace, arena`blocks, file,
        observer, gate, runtime, log, reader`failures
      ensures Valid()
      ensures old(Stuck(slot)) ==> slot == old(slot)
    {
      hide Launch.Objects, Launch.AccountedFor, Launch.Restored, Launch.Waits, Shaped, LeaseTable.Holds;
      var status;
      match call
      case BeginCall(mode) => status := Begin(mode);
      case StepCall(step) => Perform(step);
      case AbortCall(release) => status := Abort(release);
      case RetireCall => status := Retire();
    }

    /** Any calls in any order, over any number of launches: a session runs only
        after the launch of its own child was complete; and a stuck launch stays
        as it is, whatever is called. */
    method Drive(calls: seq<Call>)
      requires Valid()
      modifies this, sessions, journal, batches`slots, registry`slots, registry`closed, registry`closings,
        registry`failures, leases, arena.machine`mem, arena.machine`faults, arena`poisoned, arena`trace, arena`blocks, file,
        observer, gate, runtime, log, reader`failures
      ensures Valid()
      ensures forall k :: k in sessions.ran ==> log.Launched(sessions, k)
      ensures old(Stuck(slot)) ==> slot == old(slot) && Accounted()
    {
      hide Launch.AccountedFor, Launch.Restored, Launch.Waits, LeaseTable.Valid, Registry.Valid, BatchTable.Valid,
        Runtime.Valid, Gate.Valid, Journal.Valid, Machine.Valid, Shaped, LeaseTable.Holds, LaunchLog.Launched;
      for i := 0 to |calls|
        invariant Valid() && (old(Stuck(slot)) ==> slot == old(slot))
      {
        Serve(calls[i]);
      }
      forall k | k in sessions.ran ensures log.Launched(sessions, k) {
        log.RanAfterLaunch(sessions, k);
      }
    }

    /** One malformed answer while the session is prepared, then any calls: the
        launch cannot be given up any more and still holds all it held. */
    method PoisonedBackendSticks(calls: seq<Call>, release: ReleaseAnswer) returns (status: LaunchStatus)
      requires Valid() && slot.mode == Execute && slot.state == HandoffReady && slot.hasHandoff && !slot.hasSession
      requires !sessions.poisoned && sessions.HasRoom()
      modifies this, sessions, journal, batches`slots, registry`slots, registry`closed, registry`closings,
        registry`failures, leases, arena.machine`mem, arena.machine`faults, arena`poisoned, arena`trace, arena`blocks, file,
        observer, gate, runtime, log, reader`failures
      ensures Valid() && status == LaunchInvalidState && slot == old(slot).(state := LaunchFailed) && Accounted()
    {
      hide Launch.Objects, Launch.AccountedFor, Launch.Waits, Shaped, LeaseTable.Holds, Sessions.HasRoom;
      var prepared := PrepareBackend(BadPrepare);
      Drive(calls);
      status := Abort(release);
    }

    /** Take the launch forward by any steps, then give it up. */
    method AdvanceThenAbort(steps: seq<Step>, release: ReleaseAnswer) returns (status: LaunchStatus, wasPreparing: bool)
      requires Valid()
      modifies this`slot, sessions, journal`records, journal`state, batches`slots, registry`slots, registry`closed,
        registry`closings, registry`failures, leases, arena.machine`mem, arena.machine`faults, arena`poisoned, arena`trace,
        arena`blocks, file, observer`state, gate`held, gate`quarantined, runtime, log, reader`failures
      ensures Valid()
      ensures status in {LaunchOk, BackendIsPoisoned} && wasPreparing ==> slot.state == LaunchAborted && Restored()
      ensures !wasPreparing ==> slot.state in {NotBegun, LaunchAborted, LaunchPublished, LaunchPoisoned}
      ensures status == LaunchOk ==> slot.state == LaunchAborted
    {
      hide Launch.Objects, Launch.AccountedFor, Launch.Restored, Launch.Waits, Shaped, LeaseTable.Holds;
      for i := 0 to |steps|
        invariant Valid()
      {
        Perform(steps[i]);
      }
      wasPreparing := InPreparation(slot.state);
      status := Abort(release);
    }

    /** Begin, take any steps, and give up: if the launch was still in preparation
        and giving up succeeds, it is as if it had never begun. */
    method BeginAdvanceAbort(mode: Mode, steps: seq<Step>, release: ReleaseAnswer)
      returns (status: LaunchStatus, wasPreparing: bool)
      requires Valid()
      modifies this, sessions, journal, batches`slots, registry`slots, registry`closed, registry`closings,
        registry`failures, leases, arena.machine`mem, arena.machine`faults, arena`poisoned, arena`trace, arena`blocks, file,
        observer, gate, runtime, log, reader`failures
      ensures Valid()
      ensures status in {LaunchOk, BackendIsPoisoned} && wasPreparing ==>
        && Owned(arena.blocks) == old(Owned(arena.blocks)) && IsChain(arena.machine.mem, arena.head, arena.end, arena.blocks)
        && SameOutsideFree(old(arena.machine.mem), arena.machine.mem, old(arena.blocks))
        && registry.slots == old(registry.slots) && runtime.Now() == old(runtime.Now())
        && file.state == FileVacant && observer.state == ObserverReleased && slot.state == LaunchAborted
      ensures status == LaunchOk ==> slot.state == LaunchAborted
    {
      hide Launch.Objects, Launch.AccountedFor, Launch.Waits, Owned, IsChain, SameOutsideFree, LeaseTable.Holds, Shaped;
      wasPreparing := false;
      status := Begin(mode);
      if status != LaunchOk { return; }
      status, wasPreparing := AdvanceThenAbort(steps, release);
    }
  }
}

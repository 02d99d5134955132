/** The final publication of a prepared EXEC across all of its resources. */
module ExecSeal {
  import opened GuestMemory
  import opened GuestMachine
  import opened ExecJournal
  import opened MemoryArena
  import opened LeaseSlots
  import opened MemoryLease
  import opened SftBatch
  import opened ExecObserver
  import opened ProcessRuntime

  datatype SealStatus =
    | SealOk
    | SealInvalidArgument
    | ObserverNotReady
    | JournalNotReady
    | EnvironmentNotReady
    | LoadNotReady
    | SftNotReady
    | RuntimeNotReady
    | SealPoisoned

  datatype Environment = NoEnvironment | WithEnvironment(rebind: RebindPlan)

  datatype SealPlan = SealPlan(parent: Snapshot, environment: Environment, load: RebindPlan, batch: nat, childPsp: u16) {
    /** Both blocks go from the parent to the child, through different leases. */
    predicate WellFormed() {
      && parent.generation != 0 && parent.WellFormed() && 0 < load.handle != NO_HANDLE && 0 < batch != NO_HANDLE
      && load.value.expected == parent.currentPsp && load.value.newOwner == childPsp && load.guest == childPsp
      && (environment.WithEnvironment? ==>
            && 0 < environment.rebind.handle != NO_HANDLE && environment.rebind.handle != load.handle
            && environment.rebind.value.expected == parent.currentPsp && environment.rebind.value.newOwner == childPsp)
    }
  }

  /** Two different handles that both resolve in one table name two slots. */
  lemma {:induction false} SlotsApart(table: LeaseTable, arena: Arena, a: RebindPlan, b: RebindPlan)
    requires table.Valid() && a.handle != b.handle
    requires table.PreflightRebind(arena, a) == LeaseOk && table.PreflightRebind(arena, b) == LeaseOk
    ensures table.ResolveActive(arena, a.handle, a.value.expected).index
         != table.ResolveActive(arena, b.handle, b.value.expected).index
  {
    hide DecodeHandle, Current;
    HandleUnique(a.handle);
    HandleUnique(b.handle);
  }

  class SealServices {
    const observer: Observer
    const gate: Gate
    const observerContext: nat
    const journal: Journal
    const machineIdentity: nat
    const leases: LeaseTable
    const arena: Arena
    const batches: BatchTable
    const runtime: Runtime

    constructor (observer: Observer, gate: Gate, observerContext: nat, journal: Journal, machineIdentity: nat,
                 leases: LeaseTable, arena: Arena, batches: BatchTable, runtime: Runtime)
      ensures this.observer == observer && this.gate == gate && this.observerContext == observerContext
      ensures this.journal == journal && this.machineIdentity == machineIdentity && this.leases == leases
      ensures this.arena == arena && this.batches == batches && this.runtime == runtime
    {
      this.observer, this.gate, this.observerContext := observer, gate, observerContext;
      this.journal, this.machineIdentity, this.leases := journal, machineIdentity, leases;
      this.arena, this.batches, this.runtime := arena, batches, runtime;
    }

    ghost predicate Valid() reads this, gate, journal, leases, batches, runtime {
      gate.Valid() && journal.Valid() && leases.Valid() && batches.Valid() && runtime.Valid()
    }

    /** Everything the publication will ask for, checked without changing anything. */
    function Preflight(plan: SealPlan): (status: SealStatus)
      requires Valid()
      reads this, observer, gate, journal, leases, arena, arena.machine, batches, runtime
      ensures status == SealOk <==>
        && plan.WellFormed() && observer.ValidateHeld(gate, observerContext) == ObserverOk
        && journal.PreflightSeal(machineIdentity, arena.machine) == JournalOk
        && (plan.environment.WithEnvironment? ==> leases.PreflightRebind(arena, plan.environment.rebind) == LeaseOk)
        && leases.PreflightRebind(arena, plan.load) == LeaseOk && batches.PreflightCommit(plan.batch) == BatchOk
        && runtime.PreflightExec(plan.parent) == RuntimeOk
      ensures status == SealPoisoned ==>
        || observer.state == ObserverPoisoned || journal.state == PoisonedState || arena.poisoned || runtime.poisoned
        || batches.PreflightCommit(plan.batch) == BatchIsPoisoned
      ensures plan.WellFormed() && observer.state == ObserverPoisoned ==> status == SealPoisoned
      ensures status == JournalNotReady ==> journal.state != PoisonedState
      ensures status == EnvironmentNotReady ==>
        plan.environment.WithEnvironment?
          && leases.PreflightRebind(arena, plan.environment.rebind) !in {LeaseOk, LeaseMachinePoisoned}
      ensures status == LoadNotReady ==> leases.PreflightRebind(arena, plan.load) !in {LeaseOk, LeaseMachinePoisoned}
      ensures status == SftNotReady ==> batches.PreflightCommit(plan.batch) !in {BatchOk, BatchIsPoisoned}
      ensures status == RuntimeNotReady ==> runtime.PreflightExec(plan.parent) !in {RuntimeOk, RuntimeIsPoisoned}
    {
      if !plan.WellFormed() then SealInvalidArgument else
      var held := observer.ValidateHeld(gate, observerContext);
      if held != ObserverOk then (if held == ObserverIsPoisoned then SealPoisoned else ObserverNotReady) else
      var sealing := journal.PreflightSeal(machineIdentity, arena.machine);
      if sealing != JournalOk then (if sealing == JournalPoisoned then SealPoisoned else JournalNotReady) else
      var environment := if plan.environment.NoEnvironment? then LeaseOk
                         else leases.PreflightRebind(arena, plan.environment.rebind);
      if environment != LeaseOk then (if environment == LeaseMachinePoisoned then SealPoisoned else EnvironmentNotReady) else
      var load := leases.PreflightRebind(arena, plan.load);
      if load != LeaseOk then (if load == LeaseMachinePoisoned then SealPoisoned else LoadNotReady) else
      var batch := batches.PreflightCommit(plan.batch);
      if batch != BatchOk then (if batch == BatchIsPoisoned then SealPoisoned else SftNotReady) else
      var process := runtime.PreflightExec(plan.parent);
      if process != RuntimeOk then (if process == RuntimeIsPoisoned then SealPoisoned else RuntimeNotReady) else
      SealOk
    }

    method QuarantineServices()
      requires Valid()
      modifies journal`state, arena`poisoned, runtime`poisoned, observer`state, gate`held, gate`quarantined
      ensures Valid() && arena.poisoned && (runtime.initialized ==> runtime.poisoned)
      ensures old(journal.state) in {Staging, Sealed} ==> journal.state == PoisonedState
      ensures old(observer.state) == ObserverPoisoned ==> observer.state == ObserverPoisoned
    {
      journal.Poison();
      arena.poisoned := true;
      runtime.Poison();
      observer.Poison(gate, observerContext);
    }

    /** The slots of the table once both leases of a plan are published. */
    ghost function PublishedSlots(plan: SealPlan): seq<LeaseSlot>
      requires Valid() && Preflight(plan) == SealOk
      reads this, observer, gate, journal, leases, arena, arena.machine, batches, runtime
    {
      var s0 := leases.slots;
      var s1 := if plan.environment.NoEnvironment? then s0
                else var i := leases.ResolveActive(arena, plan.environment.rebind.handle,
                                                   plan.environment.rebind.value.expected).index;
                     s0[i := s0[i].(owner := plan.childPsp, state := Published)];
      var j := leases.ResolveActive(arena, plan.load.handle, plan.load.value.expected).index;
      s1[j := s1[j].(owner := plan.childPsp, state := Published)]
    }

    /** Both blocks of a plan end up published and with the child. */
    lemma {:induction false} PublishedMeaning(plan: SealPlan)
      requires Valid() && Preflight(plan) == SealOk
      ensures |PublishedSlots(plan)| == SLOT_COUNT && batches.ResolveHandle(plan.batch).index < BATCH_SLOTS
      ensures BatchHandleSlot(plan.batch) == batches.ResolveHandle(plan.batch).index + 1
      ensures var j := leases.ResolveActive(arena, plan.load.handle, plan.load.value.expected).index;
        && j < SLOT_COUNT && PublishedSlots(plan)[j] == leases.slots[j].(state := Published, owner := plan.childPsp)
        && DecodeHandle(plan.load.handle).Named? && DecodeHandle(plan.load.handle).slot == j
      ensures plan.environment.WithEnvironment? ==>
        var i := leases.ResolveActive(arena, plan.environment.rebind.handle, plan.environment.rebind.value.expected).index;
        && i < SLOT_COUNT && PublishedSlots(plan)[i] == leases.slots[i].(state := Published, owner := plan.childPsp)
        && DecodeHandle(plan.environment.rebind.handle).Named? && DecodeHandle(plan.environment.rebind.handle).slot == i
    {
      hide DecodeHandle, Current, BatchHandleSlot, BatchHandleGeneration, LeaseTable.FindSlot;
      if plan.environment.WithEnvironment? { SlotsApart(leases, arena, plan.environment.rebind, plan.load); }
    }

    /** Publish the leases; after the preflight neither can fail. */
    method PublishLeases(plan: SealPlan) returns (ok: bool)
      requires Valid() && Preflight(plan) == SealOk
      modifies leases`slots
      ensures Valid() && ok && leases.slots == old(PublishedSlots(plan))
    {
      hide DecodeHandle, Current, BatchHandleSlot, BatchHandleGeneration;
      if plan.environment.WithEnvironment? {
        SlotsApart(leases, arena, plan.environment.rebind, plan.load);
        var environment := leases.PublishRebind(arena, plan.environment.rebind);
        if environment != LeaseOk { return false; }
      }
      var load := leases.PublishRebind(arena, plan.load);
      return load == LeaseOk;
    }

    /** Publish leases, references, memory and process, in that order; after the
        preflight no step can fail. */
    method PublishAll(plan: SealPlan) returns (ok: bool)
      requires Valid() && Preflight(plan) == SealOk
      modifies journal`state, journal`records, leases`slots, batches`slots, runtime`dta, runtime`currentPsp, runtime`generation
      ensures Valid() && ok && leases.slots == old(PublishedSlots(plan))
      ensures var index := old(batches.ResolveHandle(plan.batch)).index;
        batches.slots == old(batches.slots)[index := old(batches.slots)[index].(state := Committed)]
      ensures journal.state == Sealed && journal.records == []
      ensures runtime.currentPsp == plan.childPsp && runtime.dta == FarPointer(plan.childPsp, DEFAULT_DTA)
      ensures runtime.generation == old(runtime.generation) + 1
    {
      hide DecodeHandle, Current, BatchHandleSlot, BatchHandleGeneration, LeaseTable.FindSlot, LeaseTable.PreflightRebind,
        SealServices.PublishedSlots;
      ok := PublishLeases(plan);
      if !ok { return; }
      var committed := batches.Commit(plan.batch);
      if committed != BatchOk { return false; }
      var sealing := journal.Seal(machineIdentity, arena.machine);
      if sealing != JournalOk { return false; }
      var published := runtime.PublishExec(plan.parent, plan.childPsp);
      return published == RuntimeOk;
    }

    /** All or nothing: a refusal changes nothing, and once the preflight passes
        every publication succeeds; only letting the observers in again can still
        go wrong, and not with the exclusive gate. */
    method Commit(plan: SealPlan) returns (status: SealStatus)
      requires Valid()
      modifies observer`state, gate`held, gate`quarantined, journal`state, journal`records, leases`slots, arena`poisoned,
        batches`slots, runtime
      ensures Valid()
      ensures old(Preflight(plan)) != SealOk ==>
        && status == old(Preflight(plan)) && unchanged(observer) && unchanged(gate) && unchanged(journal)
        && unchanged(leases) && unchanged(arena) && unchanged(batches) && unchanged(runtime)
      ensures old(Preflight(plan)) == SealOk ==>
        && leases.slots == old(PublishedSlots(plan))
        && (var index := old(batches.ResolveHandle(plan.batch)).index;
            batches.slots == old(batches.slots)[index := old(batches.slots)[index].(state := Committed)])
        && journal.records == []
        && runtime.currentPsp == plan.childPsp && runtime.dta == FarPointer(plan.childPsp, DEFAULT_DTA)
        && runtime.generation == old(runtime.generation) + 1 && runtime.identity == old(runtime.identity)
      ensures status == SealOk ==>
        && old(Preflight(plan)) == SealOk && observer.state == ObserverReleased && journal.state == Sealed
        && arena.poisoned == old(arena.poisoned) && !runtime.poisoned
      ensures old(Preflight(plan)) == SealOk && status != SealOk ==>
        && status == SealPoisoned && observer.state == ObserverPoisoned && journal.state == PoisonedState
        && arena.poisoned && runtime.poisoned
      ensures old(Preflight(plan)) == SealOk && gate.exclusive && old(observer.Owns(gate)) ==>
        status == SealOk && gate.held == 0
    {
      hide DecodeHandle, Current, BatchHandleSlot, BatchHandleGeneration, LeaseTable.FindSlot, LeaseTable.PreflightRebind,
        SealServices.PublishedSlots, BatchTable.ResolveHandle;
      status := Preflight(plan);
      if status != SealOk { return; }
      ReadyToPublish(plan);
      var published := PublishAll(plan);
      if !published { assert false; }
      var released := observer.Release(gate, observerContext);
      if released != ObserverOk {
        QuarantineServices();
        return SealPoisoned;
      }
    }

    lemma {:induction false} ReadyToPublish(plan: SealPlan)
      requires Valid() && Preflight(plan) == SealOk
      ensures observer.ValidateHeld(gate, observerContext) == ObserverOk
      ensures runtime.initialized && !runtime.poisoned && journal.state == Staging
    {
      hide LeaseTable.PreflightRebind, Current, DecodeHandle, BatchTable.ResolveHandle;
    }
  }
}

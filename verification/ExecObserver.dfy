/** Exclusion of every other observer while EXEC rearranges process state. */
module ExecObserver {
  const NO_HANDLE := 0xffff_ffff_ffff_ffff
  const GATE_GENERATION_MAX := 0xffff_ffff_ffff_ffff

  datatype GateAnswer = GateOk | GateBusy | GateFault

  /** The adapter an observer talks to.  `exclusive` is the process-global gate;
      any other adapter may answer whatever it likes. */
  class Gate {
    const identity: nat
    const context: nat
    const exclusive: bool
    var generation: nat
    var held: nat
    var quarantined: bool

    ghost predicate Valid() reads this {
      held <= generation <= GATE_GENERATION_MAX
    }

    constructor (identity: nat, context: nat, exclusive: bool)
      ensures this.identity == identity && this.context == context && this.exclusive == exclusive
      ensures Valid() && held == 0 && !quarantined
    {
      this.identity, this.context, this.exclusive := identity, context, exclusive;
      generation, held, quarantined := 0, 0, false;
    }

    method Acquire(context: nat) returns (answer: GateAnswer, issued: nat)
      requires Valid()
      modifies this`generation, this`held
      ensures Valid()
      ensures exclusive ==>
        && (answer == GateOk <==> context == this.context && !quarantined && old(held) == 0
                                  && old(generation) < 0xffff_ffff_ffff_ffff)
        && (answer == GateBusy <==> context == this.context && !quarantined && old(held) != 0)
        && (answer == GateOk ==> issued == held == generation == old(generation) + 1)
        && (answer != GateOk ==> issued == 0 && held == old(held) && generation == old(generation))
    {
      if !exclusive {
        answer, issued := *, *;
        return;
      }
      if context != this.context || quarantined { return GateFault, 0; }
      if held != 0 { return GateBusy, 0; }
      if generation == GATE_GENERATION_MAX { return GateFault, 0; }
      generation := generation + 1;
      held := generation;
      return GateOk, generation;
    }

    method Release(context: nat, generation: nat) returns (answer: GateAnswer)
      requires Valid()
      modifies this`held
      ensures Valid()
      ensures exclusive ==>
        && (answer == GateOk <==> context == this.context && !quarantined && generation == old(held) != 0)
        && held == (if answer == GateOk then 0 else old(held))
    {
      if !exclusive {
        answer := *;
        return;
      }
      if context != this.context || quarantined || generation == 0 || generation != held { return GateFault; }
      held := 0;
      return GateOk;
    }

    method Quarantine(context: nat)
      requires Valid()
      modifies this`held, this`quarantined
      ensures Valid()
      ensures exclusive && context == this.context ==> quarantined && held == 0
      ensures exclusive && context != this.context ==> quarantined == old(quarantined) && held == old(held)
    {
      if context != this.context { return; }
      quarantined, held := true, 0;
    }
  }

  datatype ObserverState = ObserverIdle | ObserverAcquiring | ObserverHeld | ObserverReleasing | ObserverReleased
    | ObserverPoisoned

  datatype ObserverStatus =
    | ObserverOk
    | ObserverInvalidArgument
    | ObserverInvalidState
    | ObserverBusy
    | ObserverBackendFault
    | ObserverIdentityMismatch
    | ObserverContextMismatch
    | ObserverIsPoisoned

  class Observer {
    var adapter: nat
    var context: nat
    var generation: nat
    var state: ObserverState

    constructor ()
      ensures state == ObserverIdle && generation == 0
    {
      adapter, context, generation, state := NO_HANDLE, NO_HANDLE, 0, ObserverIdle;
    }

    /** This observer owns the gate's present interval. */
    ghost predicate Owns(gate: Gate) reads this, gate {
      && state == ObserverHeld && adapter == gate.identity && context == gate.context
      && generation == gate.held != 0 && !gate.quarantined
    }

    method Acquire(gate: Gate, context: nat) returns (status: ObserverStatus)
      requires gate.Valid()
      modifies this, gate
      ensures gate.Valid()
      ensures status == ObserverOk ==>
        && old(state) == ObserverIdle && state == ObserverHeld && generation != 0
        && adapter == gate.identity && this.context == context && ValidateHeld(gate, context) == ObserverOk
      ensures status != ObserverOk && status != ObserverIsPoisoned ==> unchanged(this)
      ensures status == ObserverIsPoisoned ==> state == ObserverPoisoned
      ensures 0 < gate.identity != 0xffff_ffff_ffff_ffff && context != 0xffff_ffff_ffff_ffff && old(state) != ObserverIdle ==>
        && status == (if old(state) == ObserverPoisoned then ObserverIsPoisoned else ObserverInvalidState)
        && unchanged(this) && unchanged(gate)
      ensures gate.exclusive ==>
        && (status == ObserverOk ==> Owns(gate) && old(gate.held) == 0)
        && (status != ObserverOk ==> unchanged(gate) && unchanged(this))
        && (status == ObserverOk <==>
              && 0 < gate.identity != 0xffff_ffff_ffff_ffff && context == gate.context != 0xffff_ffff_ffff_ffff
              && old(state) == ObserverIdle && !old(gate.quarantined) && old(gate.held) == 0
              && old(gate.generation) < 0xffff_ffff_ffff_ffff)
    {
      if gate.identity == 0 || gate.identity == NO_HANDLE || context == NO_HANDLE { return ObserverInvalidArgument; }
      if state == ObserverPoisoned { return ObserverIsPoisoned; }
      if state != ObserverIdle { return ObserverInvalidState; }
      state := ObserverAcquiring;
      var answer, issued := gate.Acquire(context);
      if (answer == GateOk) != (issued != 0) {
        adapter, this.context, generation, state := gate.identity, context, issued, ObserverPoisoned;
        gate.Quarantine(context);
        return ObserverIsPoisoned;
      }
      if answer != GateOk {
        state := ObserverIdle;
        return if answer == GateBusy then ObserverBusy else ObserverBackendFault;
      }
      adapter, this.context, generation, state := gate.identity, context, issued, ObserverHeld;
      return ObserverOk;
    }

    function ValidateHeld(gate: Gate, context: nat): (status: ObserverStatus)
      reads this
      ensures status == ObserverOk <==>
        && state == ObserverHeld && generation != 0 && adapter == gate.identity && this.context == context
        && 0 < gate.identity != 0xffff_ffff_ffff_ffff
      ensures status == ObserverIsPoisoned <==> state == ObserverPoisoned
    {
      if state == ObserverPoisoned then ObserverIsPoisoned
      else if state != ObserverHeld || generation == 0 then ObserverInvalidState
      else ValidateAdapter(gate, context)
    }

    function ValidateAdapter(gate: Gate, context: nat): (status: ObserverStatus)
      reads this
      ensures status == ObserverOk <==>
        adapter == gate.identity && this.context == context && 0 < gate.identity != 0xffff_ffff_ffff_ffff
    {
      if gate.identity == 0 || gate.identity == NO_HANDLE then ObserverInvalidArgument
      else if gate.identity != adapter then ObserverIdentityMismatch
      else if context != this.context then ObserverContextMismatch
      else ObserverOk
    }

    /** Ready for another interval, as when it was made. */
    method Construct()
      modifies this
      ensures state == ObserverIdle && generation == 0
    {
      adapter, context, generation, state := NO_HANDLE, NO_HANDLE, 0, ObserverIdle;
    }

    /** Let go of the interval; allowed twice. */
    method Release(gate: Gate, context: nat) returns (status: ObserverStatus)
      requires gate.Valid()
      modifies this`state, gate`held, gate`quarantined
      ensures gate.Valid()
      ensures status == ObserverOk ==> state == ObserverReleased && gate.quarantined == old(gate.quarantined)
      ensures old(state) == ObserverReleased ==> status == ObserverOk && unchanged(this) && unchanged(gate)
      ensures gate.exclusive && old(Owns(gate)) && old(ValidateHeld(gate, context)) == ObserverOk ==>
        status == ObserverOk && gate.held == 0 && !gate.quarantined
      ensures status != ObserverOk && status != ObserverIsPoisoned ==> unchanged(this) && unchanged(gate)
      ensures status == ObserverIsPoisoned ==> state == ObserverPoisoned
      ensures old(ValidateHeld(gate, context)) == ObserverOk ==> status == ObserverOk || status == ObserverIsPoisoned
      ensures old(ValidateHeld(gate, context)) != ObserverOk && old(state) != ObserverReleased ==>
        status == old(ValidateHeld(gate, context)) && unchanged(this) && unchanged(gate)
    {
      if state == ObserverPoisoned { return ObserverIsPoisoned; }
      if state == ObserverReleased { return ObserverOk; }
      if state != ObserverHeld || generation == 0 { return ObserverInvalidState; }
      var valid := ValidateAdapter(gate, context);
      if valid != ObserverOk { return valid; }
      state := ObserverReleasing;
      var answer := gate.Release(context, generation);
      if answer != GateOk {
        state := ObserverPoisoned;
        gate.Quarantine(context);
        return ObserverIsPoisoned;
      }
      state := ObserverReleased;
      return ObserverOk;
    }

    method Poison(gate: Gate, context: nat)
      requires gate.Valid()
      modifies this`state, gate`held, gate`quarantined
      ensures gate.Valid()
      ensures old(ValidateHeld(gate, context)) == ObserverOk || old(state) == ObserverPoisoned ==> state == ObserverPoisoned
      ensures gate.exclusive && old(ValidateHeld(gate, context)) == ObserverOk && context == gate.context ==>
        gate.quarantined && gate.held == 0
      ensures old(ValidateHeld(gate, context)) != ObserverOk ==> unchanged(this) && unchanged(gate)
    {
      if state != ObserverHeld || generation == 0 { return; }
      if ValidateAdapter(gate, context) != ObserverOk { return; }
      state := ObserverPoisoned;
      gate.Quarantine(context);
    }
  }
}

/** The current process and its disk transfer area. */
module ProcessRuntime {
  import opened GuestMemory
  import opened ExecObserver

  const DEFAULT_DTA: u16 := 0x80
  const RUNTIME_GENERATION_MAX := 0xffff_ffff_ffff_ffff

  datatype RuntimeStatus =
    | RuntimeOk
    | RuntimeInvalidArgument
    | RuntimeNotInitialized
    | RuntimeIsPoisoned
    | StaleSnapshot
    | RuntimeGenerationExhausted

  datatype FarPointer = FarPointer(segment: u16, offset: u16)

  datatype Snapshot = Snapshot(generation: nat, identity: nat, dta: FarPointer, currentPsp: u16) {
    predicate WellFormed() { identity != 0 && identity != NO_HANDLE }
  }

  class Runtime {
    var identity: nat
    var generation: nat
    var dta: FarPointer
    var currentPsp: u16
    var initialized: bool
    var poisoned: bool

    ghost predicate Valid() reads this {
      generation <= RUNTIME_GENERATION_MAX && (initialized ==> generation != 0 && identity != 0 && identity != NO_HANDLE)
    }

    constructor (identity: nat, currentPsp: u16, dta: FarPointer)
      requires identity != 0 && identity != NO_HANDLE
      ensures Valid() && initialized && !poisoned && generation == 1 && this.identity == identity
      ensures this.currentPsp == currentPsp && this.dta == dta
    {
      this.identity, this.currentPsp, this.dta, generation := identity, currentPsp, dta, 1;
      initialized, poisoned := true, false;
    }

    function ReadyStatus(): (status: RuntimeStatus) reads this {
      if !initialized then RuntimeNotInitialized else if poisoned then RuntimeIsPoisoned else RuntimeOk
    }

    function Now(): (snapshot: Snapshot) reads this { Snapshot(generation, identity, dta, currentPsp) }

    /** A snapshot is good for exactly one publication. */
    function PreflightExec(expected: Snapshot): (status: RuntimeStatus)
      reads this
      ensures status == RuntimeOk <==>
        && initialized && !poisoned && expected == Snapshot(generation, identity, dta, currentPsp)
        && 0 < identity != 0xffff_ffff_ffff_ffff && generation != 0xffff_ffff_ffff_ffff
      ensures status == RuntimeIsPoisoned ==> poisoned
    {
      if !expected.WellFormed() then RuntimeInvalidArgument
      else if ReadyStatus() != RuntimeOk then ReadyStatus()
      else if generation == RUNTIME_GENERATION_MAX then RuntimeGenerationExhausted
      else if expected != Now() then StaleSnapshot
      else RuntimeOk
    }

    method PublishExec(expected: Snapshot, childPsp: u16) returns (status: RuntimeStatus)
      requires Valid()
      modifies this`dta, this`currentPsp, this`generation
      ensures Valid() && status == old(PreflightExec(expected))
      ensures status == RuntimeOk ==>
        dta == FarPointer(childPsp, 0x80) && currentPsp == childPsp && generation == old(generation) + 1
      ensures status != RuntimeOk ==> unchanged(this)
    {
      status := PreflightExec(expected);
      if status != RuntimeOk { return; }
      dta, currentPsp, generation := FarPointer(childPsp, DEFAULT_DTA), childPsp, generation + 1;
    }

    /** Put the parent's values back under a new generation. */
    method RestoreParent(expectedChild: Snapshot, parent: Snapshot) returns (status: RuntimeStatus)
      requires Valid()
      modifies this`dta, this`currentPsp, this`generation
      ensures Valid()
      ensures status == RuntimeOk <==> old(PreflightExec(expectedChild)) == RuntimeOk && parent.identity == identity
      ensures status == RuntimeOk ==>
        && dta == parent.dta && currentPsp == parent.currentPsp && generation == old(generation) + 1
      ensures status != RuntimeOk ==> unchanged(this)
    {
      if !parent.WellFormed() { return RuntimeInvalidArgument; }
      status := PreflightExec(expectedChild);
      if status != RuntimeOk { return; }
      if parent.identity != identity { return StaleSnapshot; }
      dta, currentPsp, generation := parent.dta, parent.currentPsp, generation + 1;
    }

    method Poison()
      modifies this`poisoned
      ensures initialized ==> poisoned
      ensures !initialized ==> poisoned == old(poisoned)
    {
      if initialized { poisoned := true; }
    }
  }
}

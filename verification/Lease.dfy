/** Generation-checked capabilities over arena blocks. */
module MemoryLease {
  import opened GuestMemory
  import opened GuestMachine
  import opened McbChain
  import opened McbBlocks
  import opened McbMeaning
  import opened McbSurvey
  import opened McbSplit
  import opened MemoryArena
  import opened LeaseSlots

  datatype Receipt = Receipt(handle: u64, guest: u16, paragraphs: u16, maximum: u16)
  datatype Found = Found(status: LeaseStatus, index: nat)

  /** Everything the final owner change of a lease needs, computed beforehand. */
  datatype RebindPlan = RebindPlan(handle: u64, arena: ArenaKey, guest: u16, paragraphs: u16, value: Rebind) {
    predicate WellFormed() {
      && handle != 0 && arena.context != NO_OBJECT && 0 < arena.identity != NO_OBJECT && arena.generation != 0
      && value.WellFormed() && value.header == HeaderOf(guest)
    }
  }

  function KeyOf(arena: Arena): (key: ArenaKey) reads arena {
    ArenaKey(arena.machine.context, arena.identity, arena.generation, arena.head)
  }

  predicate ArenaUsable(arena: Arena) reads arena {
    arena.initialized && 0 < arena.identity != NO_OBJECT && arena.generation != 0
  }

  lemma {:induction false} HeldAt(slots: seq<LeaseSlot>, key: ArenaKey, blocks: seq<Block>, i: nat)
    requires Held(slots, key, blocks) && i < |slots| && slots[i].ActiveIn(key)
    ensures slots[i].Leased() in Owned(blocks) && slots[i].Leased() in blocks && !slots[i].Leased().Free()
  {
  }

  /** Writing the plan's record over its header hands exactly that block over. */
  ghost predicate PlanRewrites(plan: RebindPlan, m: Memory, blocks: seq<Block>) {
    && HasRecord(|m|, plan.value.header)
    && exists k :: 0 <= k < |blocks| && blocks[k] == BlockHeld(plan.guest, plan.paragraphs, plan.value.expected)
                   && HeaderIs(plan.value.record, blocks[k].(owner := plan.value.newOwner), k == |blocks| - 1)
  }

  lemma {:induction false} NonzeroHandle(handle: u64)
    requires DecodeHandle(handle).Named?
    ensures handle != 0
  {
  }

  /** A refused allocation disturbs no lease. */
  lemma {:induction false} RefusalKeeps(m: Memory, head: nat, end: nat, before: seq<Block>, after: seq<Block>,
                                        slots: seq<LeaseSlot>, key: ArenaKey, i: nat, s: LeaseSlot)
    requires Tiled(before, head, end) && IsChain(m, head, end, after)
    requires Merge(after) == Merge(before) || after == Merge(before)
    requires Held(slots, key, before) && i < |slots| && !s.ActiveIn(key)
    ensures SameHoldings(before, after) && Held(slots[i := s], key, after)
  {
    hide IsChain, Merge, Held, SameHoldings, Owned, Tiled;
    ChainTiled(m, head, end, after);
    MergedMeaning(before, after, head, end);
    HoldingsKept(before, after);
    HeldFrame(slots, key, before, after);
    HeldDrop(slots, key, after, i, s);
  }

  /** A granted block is the new lease's and nobody else's. */
  lemma {:induction false} GrantTakes(m: Memory, head: nat, end: nat, before: seq<Block>, after: seq<Block>, strategy: nat,
                                      k: nat, slots: seq<LeaseSlot>, key: ArenaKey, i: nat, s: LeaseSlot)
    requires Tiled(before, head, end) && IsChain(m, head, end, after) && s.owner != 0
    requires Granted(before, after, strategy, s.owner, s.paragraphs, k, s.guest)
    requires Held(slots, key, before) && i < |slots| && !slots[i].ActiveIn(key) && s.ActiveIn(key)
    ensures Gained(before, after, s.Leased()) && Held(slots[i := s], key, after)
  {
    hide IsChain, Granted, Held, Gained, Owned, Tiled;
    GrantMeaning(before, after, head, end, strategy, s.owner, s.paragraphs, k, s.guest);
    ChainTiled(m, head, end, after);
    GainedOwned(before, after, s.Leased());
    HeldTake(slots, key, head, end, before, after, i, s);
  }

  class LeaseTable {
    const identity: nat
    var slots: seq<LeaseSlot>
    /** Every handle ever issued, with the block it was issued for. */
    ghost var issued: map<HandleKey, Grant>

    ghost predicate Valid() reads this {
      && IdentityValid(identity) && |slots| == SLOT_COUNT && Current(slots, issued)
      && forall i :: 0 <= i < |slots| ==> slots[i].generation <= LEASE_GENERATION_MAX
    }

    /** The table against one arena: an arena that can still be used is a sound
        chain in which every active lease holds its block. */
    ghost predicate Holds(arena: Arena) reads this, arena, arena.machine {
      && arena.machine.Valid()
      && (arena.Ready() == MemoryOk ==> arena.Chained() && arena.Sound() && Held(slots, KeyOf(arena), arena.blocks))
    }

    constructor (identity: nat)
      requires IdentityValid(identity)
      ensures Valid() && this.identity == identity && issued == map[]
      ensures forall i :: 0 <= i < |slots| ==> slots[i].state == Vacant
    {
      this.identity := identity;
      slots := seq(SLOT_COUNT, i => LeaseSlot(0, Vacant, NO_ARENA, 0, 0, 0));
      issued := map[];
    }

    /** Give the first reusable slot a new generation. */
    method ReserveSlot(arena: Arena, owner: u16, paragraphs: u16) returns (status: LeaseStatus, index: nat)
      requires Valid()
      modifies this`slots
      ensures status in {LeaseOk, NoSlot, LeaseGenerationExhausted} && (status == LeaseOk <==> old(HasRoom()))
      ensures status == LeaseOk ==>
        && index < 16 && old(slots)[index].state in {Vacant, Released, LeaseAborted, Published}
        && old(slots)[index].generation < 0x0fff_ffff
        && (forall j :: 0 <= j < index ==>
              !old(slots)[j].Reusable() || old(slots)[j].generation == LEASE_GENERATION_MAX)
        && slots == old(slots)[index := LeaseSlot(old(slots)[index].generation + 1, Acquiring, KeyOf(arena), 0, owner,
                                                  paragraphs)]
      ensures status != LeaseOk ==>
        && slots == old(slots)
        && forall j :: 0 <= j < SLOT_COUNT ==> !slots[j].Reusable() || slots[j].generation == LEASE_GENERATION_MAX
      ensures status == LeaseGenerationExhausted <==> forall j :: 0 <= j < 16 ==> old(slots)[j].generation == 0x0fff_ffff
    {
      hide Current;
      var exhausted := true;
      index := 0;
      while index < SLOT_COUNT
        invariant index <= SLOT_COUNT
        invariant exhausted <==> forall j :: 0 <= j < index ==> slots[j].generation == LEASE_GENERATION_MAX
        invariant forall j :: 0 <= j < index ==> !slots[j].Reusable() || slots[j].generation == LEASE_GENERATION_MAX
      {
        var slot := slots[index];
        if slot.generation != LEASE_GENERATION_MAX { exhausted := false; }
        if slot.Reusable() && slot.generation != LEASE_GENERATION_MAX {
          slots := slots[index := LeaseSlot(slot.generation + 1, Acquiring, KeyOf(arena), 0, owner, paragraphs)];
          return LeaseOk, index;
        }
        index := index + 1;
      }
      return if exhausted then LeaseGenerationExhausted else NoSlot, 0;
    }

    predicate HasRoom() reads this {
      exists i :: 0 <= i < |slots| && slots[i].state in {Vacant, Released, LeaseAborted, Published}
                  && slots[i].generation < 0x0fff_ffff
    }

    /** Allocate a block and issue a handle for it. */
    method Acquire(arena: Arena, owner: u16, name: seq<byte>, paragraphs: u16) returns (status: LeaseStatus, receipt: Receipt)
      requires Valid() && Holds(arena) && |name| <= 8
      modifies this, arena.machine`mem, arena.machine`faults, arena`poisoned, arena`trace, arena`blocks
      ensures Valid() && Holds(arena) && |arena.machine.mem| == |old(arena.machine.mem)|
      ensures arena.machine.faults >= old(arena.machine.faults)
      ensures status == LeaseOk ==>
        var d := DecodeHandle(receipt.handle);
        && old(arena.Ready()) == MemoryOk && !arena.poisoned && owner != 0 && receipt.paragraphs == paragraphs
        && d.Named? && d.identity == identity && HandleKey(d.slot, d.generation) !in old(issued)
        && issued == old(issued)[HandleKey(d.slot, d.generation) := Grant(receipt.guest, paragraphs)]
        && old(slots)[d.slot].Reusable() && d.generation > old(slots)[d.slot].generation
        && slots == old(slots)[d.slot := LeaseSlot(d.generation, Active, KeyOf(arena), receipt.guest, owner, paragraphs)]
        && Gained(old(arena.blocks), arena.blocks, BlockHeld(receipt.guest, paragraphs, owner))
        && arena.machine.faults == old(arena.machine.faults) && IsMaximum(Merge(old(arena.blocks)), receipt.maximum)
      ensures status != LeaseOk ==>
        && issued == old(issued)
        && forall i :: 0 <= i < SLOT_COUNT && !old(slots)[i].Reusable() ==> slots[i] == old(slots)[i]
      ensures status != LeaseOk && old(arena.Ready()) == MemoryOk && !arena.poisoned ==>
        SameHoldings(old(arena.blocks), arena.blocks)
      ensures old(arena.Ready()) == MemoryOk && !arena.poisoned ==>
        SameOutsideFree(old(arena.machine.mem), arena.machine.mem, old(arena.blocks))
      ensures owner != 0 && ArenaUsable(arena) && old(arena.Ready()) == MemoryOk && old(HasRoom())
              && (exists j: nat :: Candidate(Merge(old(arena.blocks)), j, paragraphs)) ==>
        status == LeaseOk || arena.machine.faults > old(arena.machine.faults)
    {
      hide Current, Held, IsChain, AllTile, Granted, Merge, Owned, InFree, SameOutsideFree, Candidate, IsMaximum,
        DecodeHandle, MakeHandle, Inside, Gained, SameHoldings, LeaseTable.HasRoom, FromMemory;
      receipt := Receipt(0, 0, 0, 0);
      SameSelf(arena.machine.mem, arena.blocks);
      HoldingsSelf(arena.blocks);
      if owner == 0 || !ArenaUsable(arena) { return LeaseInvalidArgument, receipt; }
      if arena.poisoned { return LeaseMachinePoisoned, receipt; }
      ghost var slots0 := slots;
      var index;
      status, index := ReserveSlot(arena, owner, paragraphs);
      if status != LeaseOk { return; }
      status, receipt := FillSlot(arena, owner, name, paragraphs, index, slots0);
    }

    /** Allocate the block of a slot just reserved, or vacate the slot again. */
    method FillSlot(arena: Arena, owner: u16, name: seq<byte>, paragraphs: u16, index: nat, ghost slots0: seq<LeaseSlot>)
      returns (status: LeaseStatus, receipt: Receipt)
      requires IdentityValid(identity) && |slots0| == SLOT_COUNT && index < SLOT_COUNT && Current(slots0, issued)
      requires forall i :: 0 <= i < SLOT_COUNT ==> slots0[i].generation <= LEASE_GENERATION_MAX
      requires slots0[index].Reusable() && slots0[index].generation < LEASE_GENERATION_MAX && owner != 0 && |name| <= 8
      requires slots == slots0[index := LeaseSlot(slots0[index].generation + 1, Acquiring, KeyOf(arena), 0, owner, paragraphs)]
      requires arena.machine.Valid() && arena.Ready() == MemoryOk && arena.Chained() && arena.Sound()
      requires Held(slots0, KeyOf(arena), arena.blocks)
      modifies this, arena.machine`mem, arena.machine`faults, arena`poisoned, arena`trace, arena`blocks
      ensures Valid() && Holds(arena) && |arena.machine.mem| == |old(arena.machine.mem)|
      ensures arena.machine.faults >= old(arena.machine.faults)
      ensures status == LeaseOk ==>
        var d := DecodeHandle(receipt.handle);
        && d == Named(identity, index, slots0[index].generation + 1) && HandleKey(index, d.generation) !in old(issued)
        && !arena.poisoned && receipt.paragraphs == paragraphs
        && issued == old(issued)[HandleKey(index, d.generation) := Grant(receipt.guest, paragraphs)]
        && slots == slots0[index := LeaseSlot(d.generation, Active, KeyOf(arena), receipt.guest, owner, paragraphs)]
        && Gained(old(arena.blocks), arena.blocks, BlockHeld(receipt.guest, paragraphs, owner))
        && arena.machine.faults == old(arena.machine.faults) && IsMaximum(Merge(old(arena.blocks)), receipt.maximum)
      ensures status != LeaseOk ==> issued == old(issued) && slots == slots0[index := slots[index]]
      ensures status != LeaseOk && !arena.poisoned ==> SameHoldings(old(arena.blocks), arena.blocks)
      ensures !arena.poisoned ==> SameOutsideFree(old(arena.machine.mem), arena.machine.mem, old(arena.blocks))
      ensures (exists j: nat :: Candidate(Merge(old(arena.blocks)), j, paragraphs)) ==>
        status == LeaseOk || arena.machine.faults > old(arena.machine.faults)
    {
      hide Current, Held, IsChain, AllTile, Granted, Merge, Owned, InFree, SameOutsideFree, Candidate, IsMaximum,
        DecodeHandle, MakeHandle, Inside, Gained, SameHoldings, FromMemory;
      receipt := Receipt(0, 0, 0, 0);
      ChainTiled(arena.machine.mem, arena.head, arena.end, arena.blocks);
      ghost var key, b0 := KeyOf(arena), arena.blocks;
      var memoryStatus, guest, maximum;
      ghost var k;
      memoryStatus, guest, maximum, k := arena.Allocate(owner, name, paragraphs);
      var slot := slots[index];
      if memoryStatus != MemoryOk {
        slot := slot.(arena := NO_ARENA, guest := 0, owner := 0, paragraphs := 0, state := Vacant);
        slots := slots[index := slot];
        CurrentKeeps(slots0, issued, index, slot);
        assert slots == slots0[index := slot];
        if memoryStatus != MachinePoisoned {
          RefusalKeeps(arena.machine.mem, arena.head, arena.end, b0, arena.blocks, slots0, key, index, slot);
        }
        return FromMemory(memoryStatus), receipt;
      }
      slot := slot.(guest := guest, state := Active);
      slots := slots[index := slot];
      assert slots == slots0[index := slot];
      GrantTakes(arena.machine.mem, arena.head, arena.end, b0, arena.blocks, arena.strategy, k, slots0, key, index, slot);
      CurrentIssues(slots0, issued, index, slot);
      issued := issued[HandleKey(index, slot.generation) := Grant(guest, paragraphs)];
      HandleRoundTrip(identity, index, slot.generation);
      receipt := Receipt(MakeHandle(identity, index, slot.generation), guest, paragraphs, maximum);
      status := LeaseOk;
    }

    /** Which slot a handle stands for, if its table, generation, arena life and
        owner all agree. */
    function FindSlot(arena: Arena, handle: u64, expected: u16): (found: Found)
      requires Valid()
      reads this, arena
      ensures found.status == LeaseOk ==>
        && ArenaUsable(arena) && found.index < SLOT_COUNT && expected != 0
        && DecodeHandle(handle) == Named(identity, found.index, slots[found.index].generation)
        && slots[found.index].arena == KeyOf(arena) && slots[found.index].owner == expected
        && slots[found.index].state != Vacant
      ensures found.status == LeaseOk <==>
        && arena.initialized && 0 < arena.identity != 0xffff_ffff_ffff_ffff && arena.generation != 0 && expected != 0
        && var d := DecodeHandle(handle);
        && d.Named? && d.identity == identity && slots[d.slot].generation == d.generation && slots[d.slot].state != Vacant
        && slots[d.slot].arena == ArenaKey(arena.machine.context, arena.identity, arena.generation, arena.head)
        && slots[d.slot].owner == expected
    {
      if !ArenaUsable(arena) || expected == 0 then Found(LeaseInvalidArgument, 0)
      else match DecodeHandle(handle)
        case Refused(status) => Found(status, 0)
        case Named(owner, index, generation) =>
          var slot := slots[index];
          if owner != identity then Found(LeaseIdentityMismatch, 0)
          else if slot.generation != generation || slot.state == Vacant then Found(StaleHandle, 0)
          else if slot.arena.context != arena.machine.context then Found(LeaseContextMismatch, 0)
          else if slot.arena.identity != arena.identity then Found(LeaseIdentityMismatch, 0)
          else if slot.arena.head != arena.head || slot.arena.generation != arena.generation then Found(StaleHandle, 0)
          else if slot.owner != expected then Found(LeaseOwnerMismatch, 0)
          else Found(LeaseOk, index)
    }

    /** An active lease, or why the handle is not one. */
    function ResolveActive(arena: Arena, handle: u64, expected: u16): (found: Found)
      requires Valid()
      reads this, arena
      ensures found.status == LeaseOk ==>
        && found.index < SLOT_COUNT && slots[found.index].ActiveIn(KeyOf(arena)) && expected != 0
        && slots[found.index].owner == expected && arena.Ready() == MemoryOk
        && DecodeHandle(handle) == Named(identity, found.index, slots[found.index].generation)
      ensures found.status == LeaseOk <==>
        var slot := FindSlot(arena, handle, expected);
        slot.status == LeaseOk && slots[slot.index].state == Active && !arena.poisoned
    {
      var found := FindSlot(arena, handle, expected);
      if found.status != LeaseOk then found
      else if slots[found.index].state != Active then Found(LeaseInvalidState, 0)
      else if arena.poisoned then Found(LeaseMachinePoisoned, 0)
      else found
    }

    /** Over the whole life of the table, a handle only ever resolves to the
        block it was issued for. */
    lemma {:induction false} NeverAnotherBlock(arena: Arena, handle: u64, expected: u16)
      requires Valid() && FindSlot(arena, handle, expected).status == LeaseOk
      ensures var slot := slots[FindSlot(arena, handle, expected).index];
        var d := DecodeHandle(handle);
        && HandleKey(d.slot, d.generation) in issued
        && issued[HandleKey(d.slot, d.generation)] == Grant(slot.guest, slot.paragraphs)
    {
      hide DecodeHandle;
    }

    method TransferOwner(arena: Arena, handle: u64, expected: u16, newOwner: u16, name: seq<byte>)
      returns (status: LeaseStatus, ghost k: nat)
      requires Valid() && Holds(arena) && |name| <= 8
      modifies this`slots, arena.machine`mem, arena.machine`faults, arena`poisoned, arena`trace, arena`blocks
      ensures Valid() && Holds(arena) && |arena.machine.mem| == |old(arena.machine.mem)|
      ensures status == LeaseOk ==>
        var index := old(ResolveActive(arena, handle, expected)).index;
        && old(ResolveActive(arena, handle, expected)).status == LeaseOk && newOwner != 0 && !arena.poisoned
        && slots == old(slots)[index := old(slots)[index].(owner := newOwner)]
        && Handed(old(arena.blocks), arena.blocks, old(slots)[index].Leased(), newOwner)
        && SameOutsideBlock(old(arena.machine.mem), arena.machine.mem, old(slots)[index].Leased())
      ensures status != LeaseOk ==> slots == old(slots)
      ensures status != LeaseOk && !arena.poisoned ==>
        arena.machine.mem == old(arena.machine.mem) && arena.blocks == old(arena.blocks)
      ensures old(ResolveActive(arena, handle, expected)).status == LeaseOk && newOwner != 0 ==>
        status == LeaseOk || arena.machine.faults > old(arena.machine.faults)
      ensures arena.machine.faults >= old(arena.machine.faults)
    {
      hide Current, Held, IsChain, AllTile, Owned, SameOutsideBlock, FindSlot, DecodeHandle, Handed, Reown;
      k := 0;
      if newOwner == 0 { return LeaseInvalidArgument, k; }
      var found := ResolveActive(arena, handle, expected);
      if found.status != LeaseOk { return found.status, k; }
      var slot := slots[found.index];
      ghost var b0, key := arena.blocks, KeyOf(arena);
      ChainTiled(arena.machine.mem, arena.head, arena.end, arena.blocks);
      HeldAt(slots, key, b0, found.index);
      var memoryStatus;
      memoryStatus, k := arena.TransferOwner(slot.guest, expected, newOwner, name);
      if memoryStatus != MemoryOk { return FromMemory(memoryStatus), k; }
      OwnedAt(b0, arena.head, arena.end, slot.Leased(), k);
      TransferMeaning(b0, arena.head, arena.end, k, newOwner);
      HandedOwned(b0, arena.blocks, slot.Leased(), newOwner);
      HeldTransfer(slots, key, arena.head, arena.end, b0, arena.blocks, found.index, newOwner);
      CurrentKeeps(slots, issued, found.index, slot.(owner := newOwner));
      slots := slots[found.index := slot.(owner := newOwner)];
      status := LeaseOk;
    }

    /** Free the block of an active lease.  Aborting twice is allowed. */
    method Finish(arena: Arena, handle: u64, expected: u16, aborting: bool) returns (status: LeaseStatus, ghost k: nat)
      requires Valid() && Holds(arena)
      modifies this`slots, arena.machine`mem, arena.machine`faults, arena`poisoned, arena`trace, arena`blocks
      ensures Valid() && Holds(arena) && |arena.machine.mem| == |old(arena.machine.mem)|
      ensures arena.machine.faults >= old(arena.machine.faults)
      ensures
        var found := old(FindSlot(arena, handle, expected));
        var index := found.index;
        var slot := old(slots)[index];
        && (found.status != LeaseOk ==> status == found.status)
        && (found.status == LeaseOk && aborting && (slot.state == LeaseAborted || slot.state == Released) ==> status == LeaseOk)
        && (found.status == LeaseOk && slot.state == Active && status == LeaseOk ==>
              && old(arena.Ready()) == MemoryOk && !arena.poisoned
              && slots == old(slots)[index := slot.(state := if aborting then LeaseAborted else Released)]
              && Lost(old(arena.blocks), arena.blocks, slot.Leased())
              && SameOutsideBlock(old(arena.machine.mem), arena.machine.mem, slot.Leased()))
        && (found.status == LeaseOk && slot.state == Active && old(arena.Ready()) == MemoryOk ==>
              arena.machine.faults > old(arena.machine.faults) || status == LeaseOk)
        && (status == LeaseOk && slot.state != Active ==>
              aborting && slots == old(slots) && arena.blocks == old(arena.blocks)
                && arena.machine.mem == old(arena.machine.mem))
      ensures status != LeaseOk ==> slots == old(slots)
      ensures status != LeaseOk && !arena.poisoned ==>
        arena.machine.mem == old(arena.machine.mem) && arena.blocks == old(arena.blocks)
      ensures arena.poisoned ==> old(arena.poisoned) || arena.machine.faults >= old(arena.machine.faults) + 2
      ensures var found := old(FindSlot(arena, handle, expected));
        found.status == LeaseOk && old(slots)[found.index].state == Active && old(arena.Ready()) == MemoryOk ==>
          status in {LeaseOk, LeaseMachineFault, LeaseMachinePoisoned} && (status == LeaseMachinePoisoned ==> arena.poisoned)
    {
      hide Current, Held, IsChain, AllTile, Owned, SameOutsideBlock, FindSlot, DecodeHandle, Lost, Reown;
      k := 0;
      var found := FindSlot(arena, handle, expected);
      if found.status != LeaseOk { return found.status, k; }
      var slot := slots[found.index];
      if aborting && (slot.state == LeaseAborted || slot.state == Released) { return LeaseOk, k; }
      if slot.state != Active { return LeaseInvalidState, k; }
      status, k := FreeActive(arena, found.index, aborting);
    }

    /** Free the block of an active lease and end it, or change nothing. */
    method FreeActive(arena: Arena, index: nat, aborting: bool) returns (status: LeaseStatus, ghost k: nat)
      requires Valid() && Holds(arena) && index < SLOT_COUNT && slots[index].ActiveIn(KeyOf(arena)) && slots[index].owner != 0
      modifies this`slots, arena.machine`mem, arena.machine`faults, arena`poisoned, arena`trace, arena`blocks
      ensures Valid() && Holds(arena) && |arena.machine.mem| == |old(arena.machine.mem)|
      ensures arena.machine.faults >= old(arena.machine.faults)
      ensures status == LeaseOk ==>
        && old(arena.Ready()) == MemoryOk && !arena.poisoned
        && slots == old(slots)[index := old(slots)[index].(state := if aborting then LeaseAborted else Released)]
        && Lost(old(arena.blocks), arena.blocks, old(slots)[index].Leased())
        && SameOutsideBlock(old(arena.machine.mem), arena.machine.mem, old(slots)[index].Leased())
      ensures status != LeaseOk ==> slots == old(slots)
      ensures status != LeaseOk && !arena.poisoned ==>
        arena.machine.mem == old(arena.machine.mem) && arena.blocks == old(arena.blocks)
      ensures arena.poisoned ==> old(arena.poisoned) || arena.machine.faults >= old(arena.machine.faults) + 2
      ensures old(arena.Ready()) == MemoryOk ==>
        && (status == LeaseOk || arena.machine.faults > old(arena.machine.faults))
        && status in {LeaseOk, LeaseMachineFault, LeaseMachinePoisoned} && (status == LeaseMachinePoisoned ==> arena.poisoned)
    {
      hide Current, Held, IsChain, AllTile, Owned, SameOutsideBlock, DecodeHandle, Lost, Reown;
      var slot := slots[index];
      ghost var slots0, b0, key := slots, arena.blocks, KeyOf(arena);
      if arena.Ready() == MemoryOk {
        ChainTiled(arena.machine.mem, arena.head, arena.end, b0);
        HeldAt(slots0, key, b0, index);
      }
      slots := slots[index := slot.(state := Releasing)];
      var memoryStatus;
      memoryStatus, k := arena.FreeOwned(slot.guest, slot.owner);
      if memoryStatus != MemoryOk {
        slots := slots[index := slot];
        assert slots == slots0;
        return FromMemory(memoryStatus), k;
      }
      OwnedAt(b0, arena.head, arena.end, slot.Leased(), k);
      FreeMeaning(b0, arena.head, arena.end, k);
      LostOwned(b0, arena.blocks, slot.Leased());
      var done := slot.(state := if aborting then LeaseAborted else Released);
      HeldRelease(slots0, key, b0, arena.blocks, index, done);
      CurrentKeeps(slots0, issued, index, done);
      slots := slots[index := done];
      assert slots == slots0[index := done];
      status := LeaseOk;
    }

    /** Compute the owner change of a lease without making it; guest memory need
        not hold the chain (`whole`) for that. */
    method PrepareRebind(arena: Arena, handle: u64, expected: u16, newOwner: u16, name: seq<byte>, ghost whole: bool)
      returns (status: LeaseStatus, plan: RebindPlan)
      requires Valid() && arena.machine.Valid() && (whole ==> Holds(arena)) && |name| <= 8
      modifies arena.machine`faults
      ensures Valid() && arena.machine.faults >= old(arena.machine.faults)
      ensures status == LeaseOk ==>
        && PreflightRebind(arena, plan) == LeaseOk && plan.handle == handle && plan.arena == KeyOf(arena)
        && plan.value.expected == expected && plan.value.newOwner == newOwner
        && HasRecord(|arena.machine.mem|, plan.value.header)
        && plan.value.record == SetName(SetOwner(RecordAt(arena.machine.mem, plan.value.header), newOwner), name)
      ensures whole && status == LeaseOk ==> PlanRewrites(plan, arena.machine.mem, arena.blocks)
      ensures whole && newOwner != 0 && ResolveActive(arena, handle, expected).status == LeaseOk
              && arena.machine.context != NO_OBJECT ==>
        status == LeaseOk || arena.machine.faults > old(arena.machine.faults)
    {
      hide Current, Held, IsChain, AllTile, Owned, RecordAt, SetName, SetOwner, HeaderIs, Word, DecodeHandle;
      plan := RebindPlan(0, NO_ARENA, 0, 0, Rebind(0, 0, 0, []));
      if newOwner == 0 { return LeaseInvalidArgument, plan; }
      var found := ResolveActive(arena, handle, expected);
      if found.status != LeaseOk { return found.status, plan; }
      var slot := slots[found.index];
      NonzeroHandle(handle);
      if whole {
        ChainTiled(arena.machine.mem, arena.head, arena.end, arena.blocks);
        HeldAt(slots, KeyOf(arena), arena.blocks, found.index);
      }
      var memoryStatus, value;
      ghost var k;
      memoryStatus, value, k := arena.PrepareRebind(slot.guest, expected, newOwner, name, whole);
      if memoryStatus != MemoryOk { return FromMemory(memoryStatus), plan; }
      if whole { OwnedAt(arena.blocks, arena.head, arena.end, slot.Leased(), k); }
      var prepared := RebindPlan(handle, slot.arena, slot.guest, slot.paragraphs, value);
      if !prepared.WellFormed() { return LeaseArenaDamaged, plan; }
      return LeaseOk, prepared;
    }

    function PreflightRebind(arena: Arena, plan: RebindPlan): (status: LeaseStatus)
      requires Valid()
      reads this, arena
      ensures status == LeaseOk <==>
        var found := ResolveActive(arena, plan.handle, plan.value.expected);
        && plan.WellFormed() && found.status == LeaseOk && slots[found.index].arena == plan.arena
        && slots[found.index].guest == plan.guest && slots[found.index].paragraphs == plan.paragraphs
      ensures status == LeaseMachinePoisoned ==> arena.poisoned
    {
      if !plan.WellFormed() then LeaseInvalidArgument else
        var found := FindSlot(arena, plan.handle, plan.value.expected);
        if found.status != LeaseOk then found.status
        else if arena.poisoned then LeaseMachinePoisoned
        else var slot := slots[found.index];
             if slot.state != Active then LeaseInvalidState
             else if slot.arena.context != plan.arena.context then LeaseContextMismatch
             else if slot.arena.identity != plan.arena.identity then LeaseIdentityMismatch
             else if slot.arena != plan.arena || slot.guest != plan.guest || slot.paragraphs != plan.paragraphs
             then StaleHandle
             else LeaseOk
    }

    /** Give the lease its new owner and end it: no guest access, no failure
        after the preflight. */
    method PublishRebind(arena: Arena, plan: RebindPlan) returns (status: LeaseStatus)
      requires Valid()
      modifies this`slots
      ensures Valid() && status == old(PreflightRebind(arena, plan))
      ensures status == LeaseOk ==>
        var index := old(ResolveActive(arena, plan.handle, plan.value.expected)).index;
        slots == old(slots)[index := old(slots)[index].(owner := plan.value.newOwner, state := Published)]
      ensures status != LeaseOk ==> slots == old(slots)
    {
      hide Current, DecodeHandle;
      status := PreflightRebind(arena, plan);
      if status != LeaseOk { return; }
      var found := FindSlot(arena, plan.handle, plan.value.expected);
      if found.status != LeaseOk { return found.status; }
      var slot := slots[found.index].(owner := plan.value.newOwner, state := Published);
      CurrentKeeps(slots, issued, found.index, slot);
      slots := slots[found.index := slot];
    }

    /** Leave the block with its owner and end the lease; allowed twice. */
    method Publish(arena: Arena, handle: u64, expected: u16) returns (status: LeaseStatus)
      requires Valid() && Holds(arena)
      modifies this`slots
      ensures Valid() && Holds(arena)
      ensures status == LeaseOk ==>
        var found := old(FindSlot(arena, handle, expected));
        && found.status == LeaseOk && old(slots)[found.index].state in {Active, Published}
        && slots == old(slots)[found.index := old(slots)[found.index].(state := Published)]
      ensures status != LeaseOk ==> slots == old(slots)
      ensures old(ResolveActive(arena, handle, expected)).status == LeaseOk ==> status == LeaseOk
    {
      hide Current, Held, IsChain, AllTile, DecodeHandle, FindSlot;
      var found := FindSlot(arena, handle, expected);
      if found.status != LeaseOk { return found.status; }
      if arena.poisoned { return LeaseMachinePoisoned; }
      var slot := slots[found.index];
      if slot.state == Published {
        assert slots == slots[found.index := slot.(state := Published)];
        return LeaseOk;
      }
      if slot.state != Active { return LeaseInvalidState; }
      HeldDrop(slots, KeyOf(arena), arena.blocks, found.index, slot.(state := Published));
      CurrentKeeps(slots, issued, found.index, slot.(state := Published));
      slots := slots[found.index := slot.(state := Published)];
      status := LeaseOk;
    }
  }
}

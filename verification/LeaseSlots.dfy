/** Lease handles, lease slots and what it means for a slot to hold a block. */
module LeaseSlots {
  import opened GuestMemory
  import opened McbChain
  import opened McbBlocks
  import opened McbMeaning
  import opened MemoryArena

  const SLOT_COUNT := 16
  const LEASE_GENERATION_MAX := 0x0fff_ffff
  const HANDLE_LIMIT := 0x1_0000_0000
  const NO_OBJECT := 0xffff_ffff_ffff_ffff

  predicate IdentityValid(identity: nat) {
    0 < identity < HANDLE_LIMIT - 1
  }

  // ---------- handles ----------

  /** The table's lifetime in the high half, then the generation, then the slot. */
  function MakeHandle(identity: nat, slot: nat, generation: nat): (handle: u64)
    requires IdentityValid(identity) && slot < SLOT_COUNT && generation <= LEASE_GENERATION_MAX
  {
    identity * HANDLE_LIMIT + generation * SLOT_COUNT + slot
  }

  datatype HandleFields = Refused(status: LeaseStatus) | Named(identity: nat, slot: nat, generation: nat)

  function DecodeHandle(handle: u64): (d: HandleFields)
    ensures d.Refused? ==> d.status == LeaseInvalidArgument || d.status == StaleHandle
    ensures d.Named? ==> IdentityValid(d.identity) && d.slot < SLOT_COUNT && 0 < d.generation <= LEASE_GENERATION_MAX
  {
    var identity := handle / HANDLE_LIMIT % HANDLE_LIMIT;
    var generation := handle / SLOT_COUNT % (LEASE_GENERATION_MAX + 1);
    if handle == 0 || !IdentityValid(identity) then Refused(LeaseInvalidArgument)
    else if generation == 0 then Refused(StaleHandle)
    else Named(identity, handle % SLOT_COUNT, generation)
  }

  /** A handle names its table, slot and generation and nothing else. */
  lemma {:induction false} HandleRoundTrip(identity: nat, slot: nat, generation: nat)
    requires IdentityValid(identity) && slot < SLOT_COUNT && 0 < generation <= LEASE_GENERATION_MAX
    ensures DecodeHandle(MakeHandle(identity, slot, generation)) == Named(identity, slot, generation)
  {
    var local := generation * SLOT_COUNT + slot;
    var handle := MakeHandle(identity, slot, generation);
    assert handle / HANDLE_LIMIT == identity && handle % SLOT_COUNT == slot;
    assert handle / SLOT_COUNT == identity * (LEASE_GENERATION_MAX + 1) + generation;
  }

  lemma {:induction false} HandleUnique(handle: u64)
    requires DecodeHandle(handle).Named?
    ensures var d := DecodeHandle(handle); MakeHandle(d.identity, d.slot, d.generation) == handle
  {
    assert handle / HANDLE_LIMIT < HANDLE_LIMIT;
    var local := handle % HANDLE_LIMIT;
    assert handle == handle / HANDLE_LIMIT * HANDLE_LIMIT + local;
    assert handle / SLOT_COUNT == handle / HANDLE_LIMIT * (LEASE_GENERATION_MAX + 1) + local / SLOT_COUNT;
  }

  /** How a handle is spelled: the table in the high 32 bits, then 28 bits of
      generation and four of slot; zero is in use for nothing. */
  lemma {:induction false} HandleSpelled(handle: u64, identity: nat, slot: nat, generation: nat)
    ensures DecodeHandle(handle) == Named(identity, slot, generation) <==>
      && 0 < identity < 0xffff_ffff && slot < 16 && 0 < generation < 0x1000_0000
      && handle == 0x1_0000_0000 * identity + 16 * generation + slot
  {
    hide DecodeHandle;
    if DecodeHandle(handle) == Named(identity, slot, generation) {
      HandleUnique(handle);
    }
    if 0 < identity < 0xffff_ffff && slot < 16 && 0 < generation < 0x1000_0000 {
      HandleRoundTrip(identity, slot, generation);
    }
  }

  // ---------- slots ----------

  datatype LeaseStatus =
    | LeaseOk
    | LeaseInvalidArgument
    | NoSlot
    | LeaseNotEnoughMemory
    | LeaseInvalidBlock
    | LeaseArenaDamaged
    | LeaseMachineFault
    | LeaseMachinePoisoned
    | StaleHandle
    | LeaseOwnerMismatch
    | LeaseContextMismatch
    | LeaseIdentityMismatch
    | LeaseGenerationExhausted
    | LeaseInvalidState

  function FromMemory(status: MemoryStatus): (lease: LeaseStatus)
    ensures lease == LeaseOk <==> status == MemoryOk
    ensures lease == LeaseMachinePoisoned <==> status == MachinePoisoned
  {
    match status
    case MemoryOk => LeaseOk
    case MemoryInvalidArgument => LeaseInvalidArgument
    case InvalidBlock => LeaseInvalidBlock
    case NotEnoughMemory => LeaseNotEnoughMemory
    case ArenaDamaged => LeaseArenaDamaged
    case MachineFault => LeaseMachineFault
    case MachinePoisoned => LeaseMachinePoisoned
    case OwnerMismatch => LeaseOwnerMismatch
    case GenerationExhausted => LeaseGenerationExhausted
  }

  datatype LeaseState = Vacant | Acquiring | Active | Releasing | Released | LeaseAborted | Published

  /** The life of one arena: a reinitialised arena is another one. */
  datatype ArenaKey = ArenaKey(context: nat, identity: nat, generation: nat, head: nat)

  datatype LeaseSlot = LeaseSlot(generation: nat, state: LeaseState, arena: ArenaKey, guest: u16, owner: u16, paragraphs: u16) {
    predicate Reusable() {
      state == Vacant || state == Released || state == LeaseAborted || state == Published
    }

    /** The chain block this slot stands for. */
    function Leased(): (b: Block) { BlockHeld(guest, paragraphs, owner) }

    predicate ActiveIn(key: ArenaKey) { state == Active && arena == key }
  }

  const NO_ARENA := ArenaKey(NO_OBJECT, NO_OBJECT, 0, 0)

  /** Every active lease names an allocated block, no two the same one. */
  ghost predicate Held(slots: seq<LeaseSlot>, key: ArenaKey, blocks: seq<Block>) {
    && (forall i :: 0 <= i < |slots| && slots[i].ActiveIn(key) ==> slots[i].Leased() in Owned(blocks))
    && (forall i, j :: 0 <= i < j < |slots| && slots[i].ActiveIn(key) && slots[j].ActiveIn(key) ==>
          slots[i].guest != slots[j].guest)
  }

  /** Active leases are chain headers in guest memory, with the lease's owner and
      size, and share no paragraph. */
  lemma {:induction false} HeldMeaning(slots: seq<LeaseSlot>, key: ArenaKey, m: Memory, head: nat, end: nat,
                                       blocks: seq<Block>, i: nat, j: nat)
    requires IsChain(m, head, end, blocks) && Held(slots, key, blocks)
    requires i < |slots| && slots[i].ActiveIn(key) && j < |slots| && slots[j].ActiveIn(key)
    ensures HasRecord(|m|, HeaderOf(slots[i].guest))
    ensures var r := RecordAt(m, HeaderOf(slots[i].guest));
      Owner(r) == slots[i].owner != 0 && Size(r) == slots[i].paragraphs && SignatureValid(r)
    ensures i != j ==> forall p: nat :: !(Inside(slots[i].Leased(), p) && Inside(slots[j].Leased(), p))
  {
    hide RecordAt, Word;
    var b := slots[i].Leased();
    var k :| 0 <= k < |blocks| && blocks[k] == b;
    assert HeaderAt(m, blocks[k], k == |blocks| - 1);
    if i != j {
      assert slots[if i < j then i else j].guest != slots[if i < j then j else i].guest;
      LeasedApart(slots[i], slots[j]);
      OwnedApart(blocks, head, end, b, slots[j].Leased());
    }
  }

  /** Slot `i` turns into something that is not active. */
  lemma {:induction false} HeldDrop(slots: seq<LeaseSlot>, key: ArenaKey, blocks: seq<Block>, i: nat, s: LeaseSlot)
    requires Held(slots, key, blocks) && i < |slots| && !s.ActiveIn(key)
    ensures Held(slots[i := s], key, blocks)
  {
    hide Owned;
    var after := slots[i := s];
    assert forall j :: 0 <= j < |after| && after[j].ActiveIn(key) ==> after[j] == slots[j];
  }

  /** The allocated blocks of active leases survive. */
  lemma {:induction false} HeldFrame(slots: seq<LeaseSlot>, key: ArenaKey, blocks: seq<Block>, blocks': seq<Block>)
    requires Held(slots, key, blocks) && Owned(blocks) <= Owned(blocks')
    ensures Held(slots, key, blocks')
  {
    hide Owned;
  }

  /** Slot `i`, not active before, comes to hold a block nobody held. */
  lemma {:induction false} HeldTake(slots: seq<LeaseSlot>, key: ArenaKey, head: nat, end: nat, blocks: seq<Block>,
                                    blocks': seq<Block>, i: nat, s: LeaseSlot)
    requires Held(slots, key, blocks) && i < |slots| && !slots[i].ActiveIn(key) && Tiled(blocks', head, end)
    requires s.ActiveIn(key) && s.Leased() !in Owned(blocks) && Owned(blocks') == Owned(blocks) + {s.Leased()}
    ensures Held(slots[i := s], key, blocks')
  {
    hide Tiled;
    var after := slots[i := s];
    forall j | 0 <= j < |after| && j != i && after[j].ActiveIn(key)
      ensures after[j].guest != s.guest
    {
      assert slots[j].Leased() in Owned(blocks);
      OwnedApart(blocks', head, end, slots[j].Leased(), s.Leased());
    }
  }

  /** Slot `i` and its block change owner together. */
  lemma {:induction false} HeldTransfer(slots: seq<LeaseSlot>, key: ArenaKey, head: nat, end: nat, blocks: seq<Block>,
                                        blocks': seq<Block>, i: nat, owner: u16)
    requires Held(slots, key, blocks) && i < |slots| && slots[i].ActiveIn(key) && owner != 0
    requires Owned(blocks') == Owned(blocks) - {slots[i].Leased()} + {slots[i].Leased().(owner := owner)}
    ensures Held(slots[i := slots[i].(owner := owner)], key, blocks')
  {
    hide Owned;
    var after := slots[i := slots[i].(owner := owner)];
    forall j | 0 <= j < |after| && after[j].ActiveIn(key)
      ensures after[j].Leased() in Owned(blocks')
    {
      if j != i {
        assert slots[if i < j then i else j].guest != slots[if i < j then j else i].guest;
        LeasedApart(slots[i], slots[j]);
      }
    }
  }

  lemma {:induction false} LeasedApart(a: LeaseSlot, b: LeaseSlot)
    requires a.guest != b.guest
    ensures a.Leased() != b.Leased()
  {
  }

  /** Slot `i` lets its block go. */
  lemma {:induction false} HeldRelease(slots: seq<LeaseSlot>, key: ArenaKey, blocks: seq<Block>, blocks': seq<Block>,
                                       i: nat, s: LeaseSlot)
    requires Held(slots, key, blocks) && i < |slots| && slots[i].ActiveIn(key) && !s.ActiveIn(key)
    requires Owned(blocks') == Owned(blocks) - {slots[i].Leased()}
    ensures Held(slots[i := s], key, blocks')
  {
    hide Owned;
    var after := slots[i := s];
    forall j | 0 <= j < |after| && after[j].ActiveIn(key)
      ensures after[j].Leased() in Owned(blocks')
    {
      assert slots[if i < j then i else j].guest != slots[if i < j then j else i].guest;
      LeasedApart(slots[i], slots[j]);
    }
  }

  // ---------- handles that were ever issued ----------

  datatype HandleKey = HandleKey(slot: nat, generation: nat)
  datatype Grant = Grant(guest: u16, paragraphs: u16)

  /** A handle of the slot's present generation still means the block it was
      issued for, every other handle is of an earlier generation, and a slot in
      use has had its handle issued. */
  ghost predicate Current(slots: seq<LeaseSlot>, issued: map<HandleKey, Grant>) {
    && (forall k :: k in issued ==>
          && k.slot < |slots| && 0 < k.generation <= slots[k.slot].generation
          && (k.generation == slots[k.slot].generation ==>
                slots[k.slot].guest == issued[k].guest && slots[k.slot].paragraphs == issued[k].paragraphs
                && slots[k.slot].state != Vacant))
    && (forall i :: 0 <= i < |slots| && slots[i].state != Vacant ==> HandleKey(i, slots[i].generation) in issued)
  }

  /** A slot update that keeps the generation keeps the block; a new generation
      without a handle leaves the slot vacant. */
  lemma {:induction false} CurrentKeeps(slots: seq<LeaseSlot>, issued: map<HandleKey, Grant>, i: nat, s: LeaseSlot)
    requires Current(slots, issued) && i < |slots|
    requires (s.generation > slots[i].generation && s.state == Vacant) ||
      (s.generation == slots[i].generation && s.guest == slots[i].guest && s.paragraphs == slots[i].paragraphs
       && s.state != Vacant && slots[i].state != Vacant)
    ensures Current(slots[i := s], issued)
  {
  }

  lemma {:induction false} CurrentIssues(slots: seq<LeaseSlot>, issued: map<HandleKey, Grant>, i: nat, s: LeaseSlot)
    requires Current(slots, issued) && i < |slots| && s.generation > slots[i].generation && s.state != Vacant
    ensures HandleKey(i, s.generation) !in issued
    ensures Current(slots[i := s], issued[HandleKey(i, s.generation) := Grant(s.guest, s.paragraphs)])
  {
  }
}

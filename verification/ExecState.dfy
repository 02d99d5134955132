/** The resources of a launch in preparation, as values. */
module ExecState {
  import opened GuestMemory
  import opened McbChain
  import opened McbBlocks
  import opened McbMeaning
  import opened McbSurvey
  import opened McbSplit
  import opened MemoryArena
  import opened LeaseSlots
  import opened ExecJournal
  import opened ExecMemory
  import opened SftCounts
  import opened SftBatch
  import opened ProcessRuntime

  /** What the launch found when it began. */
  datatype Start = Start(mem: Memory, blocks: seq<Block>, sft: Slots, runtime: Snapshot)

  datatype Lease = NoLease | Leased(handle: u64, guest: u16, paragraphs: u16)

  function BlockOfLease(lease: Lease, owner: nat): (b: set<Block>) {
    if lease.NoLease? then {} else {BlockHeld(lease.guest, lease.paragraphs, owner)}
  }

  function HeldBlocks(environment: Lease, target: Lease, owner: nat): (held: set<Block>) {
    BlockOfLease(environment, owner) + BlockOfLease(target, owner)
  }

  /** The handle of a lease names an active slot for exactly its block. */
  ghost predicate LeaseHeld(slots: seq<LeaseSlot>, identity: nat, key: ArenaKey, lease: Lease, owner: u16) {
    lease.Leased? ==>
      var d := DecodeHandle(lease.handle);
      && d.Named? && d.identity == identity && d.slot < |slots| && owner != 0
      && slots[d.slot] == LeaseSlot(d.generation, Active, key, lease.guest, owner, lease.paragraphs)
  }

  ghost predicate LeasesHeld(slots: seq<LeaseSlot>, identity: nat, key: ArenaKey, environment: Lease, target: Lease,
                             owner: u16) {
    && LeaseHeld(slots, identity, key, environment, owner) && LeaseHeld(slots, identity, key, target, owner)
    && (environment.Leased? && target.Leased? ==> environment.handle != target.handle)
  }

  /** Guest memory without the journalled changes, against the start. */
  ghost predicate MemorySound(start: Start, mem: Memory, records: seq<Record>, a20: bool, head: nat, end: nat,
                              blocks: seq<Block>, held: set<Block>)
  {
    && WellFormed(records) && Fit(records, |mem|, a20) && McbChain.RECORD_BYTES * end <= |mem|
    && IsChain(Undo(records, 0, mem, a20), head, end, blocks)
    && Kept(start.mem, start.blocks, Undo(records, 0, mem, a20), blocks, held)
  }

  /** The registry against the start: raised by the prepared batch, or the same. */
  ghost predicate FilesSound(start: Start, sft: Slots, batches: seq<BatchSlot>, context: nat, identity: nat, hasBatch: bool,
                             batch: nat)
  {
    if hasBatch then
      var i := BatchHandleSlot(batch) - 1;
      && 0 <= i < |batches| && BatchHandleGeneration(batch) == batches[i].generation != 0
      && batches[i].state == Prepared && batches[i].context == context && batches[i].adapter == identity != NO_BACKEND
      && EntriesName(sft, batches[i].entries) && Covered(sft, Sfns(batches[i].entries))
      && DropAll(sft, Sfns(batches[i].entries)) == start.sft && Closings(sft, Sfns(batches[i].entries)) == []
    else sft == start.sft
  }

  // ---------- leases ----------

  lemma {:induction false} NoLeases(slots: seq<LeaseSlot>, identity: nat, key: ArenaKey, owner: u16)
    ensures LeasesHeld(slots, identity, key, NoLease, NoLease, owner) && HeldBlocks(NoLease, NoLease, owner) == {}
  {
  }

  /** Two leases of one table sit in two slots. */
  lemma {:induction false} LeaseSlotsDiffer(slots: seq<LeaseSlot>, identity: nat, key: ArenaKey, environment: Lease,
                                            target: Lease, owner: u16)
    requires LeasesHeld(slots, identity, key, environment, target, owner) && environment.Leased? && target.Leased?
    ensures DecodeHandle(environment.handle).slot != DecodeHandle(target.handle).slot
  {
    hide DecodeHandle;
    HandleUnique(environment.handle);
    HandleUnique(target.handle);
  }

  lemma {:induction false} LeaseBlocksDiffer(slots: seq<LeaseSlot>, identity: nat, key: ArenaKey, environment: Lease,
                                             target: Lease, owner: u16, blocks: seq<Block>)
    requires LeasesHeld(slots, identity, key, environment, target, owner) && environment.Leased? && target.Leased?
    requires Held(slots, key, blocks)
    ensures BlockHeld(environment.guest, environment.paragraphs, owner) != BlockHeld(target.guest, target.paragraphs, owner)
  {
    hide DecodeHandle, Owned;
    LeaseSlotsDiffer(slots, identity, key, environment, target, owner);
    var i, j := DecodeHandle(environment.handle).slot, DecodeHandle(target.handle).slot;
    assert slots[if i < j then i else j].guest != slots[if i < j then j else i].guest;
    LeasedApart(slots[i], slots[j]);
  }

  /** A slot that was not active is taken; existing leases keep theirs. */
  lemma {:induction false} LeaseKept(slots: seq<LeaseSlot>, slots': seq<LeaseSlot>, identity: nat, key: ArenaKey, lease: Lease,
                                     owner: u16)
    requires LeaseHeld(slots, identity, key, lease, owner) && |slots'| == |slots|
    requires forall i :: 0 <= i < |slots| && !slots[i].Reusable() ==> slots'[i] == slots[i]
    ensures LeaseHeld(slots', identity, key, lease, owner)
  {
    hide DecodeHandle;
  }

  lemma {:induction false} LeaseTaken(slots: seq<LeaseSlot>, slots': seq<LeaseSlot>, identity: nat, key: ArenaKey, lease: Lease,
                                      owner: u16, handle: u64)
    requires LeaseHeld(slots, identity, key, lease, owner)
    requires DecodeHandle(handle).Named? && DecodeHandle(handle).slot < |slots|
    requires slots[DecodeHandle(handle).slot].Reusable()
    requires |slots'| == |slots| && slots' == slots[DecodeHandle(handle).slot := slots'[DecodeHandle(handle).slot]]
    ensures LeaseHeld(slots', identity, key, lease, owner)
    ensures lease.Leased? ==> lease.handle != handle
  {
    hide DecodeHandle;
    var d := DecodeHandle(handle);
    forall i | 0 <= i < |slots| && !slots[i].Reusable()
      ensures slots'[i] == slots[i]
    {
      assert i != d.slot;
    }
    LeaseKept(slots, slots', identity, key, lease, owner);
  }

  /** One lease ends; the other one stays. */
  lemma {:induction false} LeaseEnds(slots: seq<LeaseSlot>, identity: nat, key: ArenaKey, gone: Lease, stays: Lease, owner: u16,
                                     s: LeaseSlot)
    requires LeasesHeld(slots, identity, key, stays, gone, owner) && gone.Leased?
    ensures DecodeHandle(gone.handle).Named? && DecodeHandle(gone.handle).slot < |slots|
    ensures LeasesHeld(slots[DecodeHandle(gone.handle).slot := s], identity, key, stays, NoLease, owner)
  {
    hide DecodeHandle;
    if stays.Leased? { LeaseSlotsDiffer(slots, identity, key, stays, gone, owner); }
  }

  lemma {:induction false} LeasesSwap(slots: seq<LeaseSlot>, identity: nat, key: ArenaKey, a: Lease, b: Lease, owner: u16)
    requires LeasesHeld(slots, identity, key, a, b, owner)
    ensures LeasesHeld(slots, identity, key, b, a, owner)
  {
  }

  // ---------- memory ----------

  lemma {:induction false} MemoryStarts(mem: Memory, a20: bool, head: nat, end: nat, blocks: seq<Block>, sft: Slots,
                                        runtime: Snapshot)
    requires IsChain(mem, head, end, blocks) && McbChain.RECORD_BYTES * end <= |mem|
    ensures MemorySound(Start(mem, blocks, sft, runtime), mem, [], a20, head, end, blocks, {})
  {
    hide IsChain, Kept;
    KeptStarts(mem, blocks);
  }

  /** Without records, memory itself is sound. */
  lemma {:induction false} MemoryPlain(start: Start, mem: Memory, a20: bool, head: nat, end: nat, blocks: seq<Block>,
                                       held: set<Block>)
    ensures MemorySound(start, mem, [], a20, head, end, blocks, held) <==>
      && McbChain.RECORD_BYTES * end <= |mem| && IsChain(mem, head, end, blocks)
        && Kept(start.mem, start.blocks, mem, blocks, held)
  {
    hide IsChain, Kept;
  }

  /** What the journal covers does not matter. */
  lemma {:induction false} MemoryJournalled(start: Start, mem: Memory, records: seq<Record>, mem': Memory,
                                            records': seq<Record>, a20: bool, head: nat, end: nat, blocks: seq<Block>,
                                            held: set<Block>)
    requires MemorySound(start, mem, records, a20, head, end, blocks, held) && |mem'| == |mem|
    requires WellFormed(records') && Fit(records', |mem'|, a20)
    requires Undo(records', 0, mem', a20) == Undo(records, 0, mem, a20)
    ensures MemorySound(start, mem', records', a20, head, end, blocks, held)
  {
    hide IsChain, Kept, Undo;
  }

  lemma {:induction false} MemoryGain(start: Start, mem: Memory, a20: bool, head: nat, end: nat, blocks: seq<Block>,
                                      held: set<Block>, mem': Memory, blocks': seq<Block>, b: Block)
    requires MemorySound(start, mem, [], a20, head, end, blocks, held) && |mem'| == |mem|
    requires IsChain(mem', head, end, blocks') && Gained(blocks, blocks', b) && SameOutsideFree(mem, mem', blocks)
    ensures MemorySound(start, mem', [], a20, head, end, blocks', held + {b})
  {
    hide IsChain, Kept, Gained, SameOutsideFree, MemorySound;
    MemoryPlain(start, mem, a20, head, end, blocks, held);
    KeptGain(start.mem, start.blocks, mem, blocks, held, mem', blocks', b);
    MemoryPlain(start, mem', a20, head, end, blocks', held + {b});
  }

  lemma {:induction false} MemorySame(start: Start, mem: Memory, a20: bool, head: nat, end: nat, blocks: seq<Block>,
                                      held: set<Block>, mem': Memory, blocks': seq<Block>)
    requires MemorySound(start, mem, [], a20, head, end, blocks, held) && |mem'| == |mem|
    requires IsChain(mem', head, end, blocks') && SameHoldings(blocks, blocks') && SameOutsideFree(mem, mem', blocks)
    ensures MemorySound(start, mem', [], a20, head, end, blocks', held)
  {
    hide IsChain, Kept, SameHoldings, SameOutsideFree, MemorySound;
    MemoryPlain(start, mem, a20, head, end, blocks, held);
    KeptSame(start.mem, start.blocks, mem, blocks, held, mem', blocks');
    MemoryPlain(start, mem', a20, head, end, blocks', held);
  }

  lemma {:induction false} MemoryFilled(start: Start, mem: Memory, a20: bool, head: nat, end: nat, blocks: seq<Block>,
                                        held: set<Block>, mem': Memory, b: Block)
    requires MemorySound(start, mem, [], a20, head, end, blocks, held) && b in held && SameOutsideData(mem, mem', b)
    ensures MemorySound(start, mem', [], a20, head, end, blocks, held)
  {
    hide IsChain, InFree, Inside, SameOutsideFree, MemorySound, SameOutsideData;
    MemoryPlain(start, mem, a20, head, end, blocks, held);
    assert b in Owned(blocks);
    FillKeepsChain(mem, mem', head, end, blocks, b);
    DataInsideBlock(mem, mem', b);
    KeptInside(start.mem, start.blocks, mem, blocks, held, mem', b);
    SameSize(mem, mem', b);
    MemoryPlain(start, mem', a20, head, end, blocks, held);
  }

  lemma {:induction false} SameSize(m: Memory, m': Memory, b: Block)
    requires SameOutsideData(m, m', b)
    ensures |m'| == |m|
  {
  }

  lemma {:induction false} MemoryLose(start: Start, mem: Memory, a20: bool, head: nat, end: nat, blocks: seq<Block>,
                                      held: set<Block>, mem': Memory, blocks': seq<Block>, b: Block)
    requires MemorySound(start, mem, [], a20, head, end, blocks, held) && b in held && |mem'| == |mem|
    requires IsChain(mem', head, end, blocks') && Lost(blocks, blocks', b) && SameOutsideBlock(mem, mem', b)
    ensures MemorySound(start, mem', [], a20, head, end, blocks', held - {b})
  {
    hide IsChain, Kept, Lost, SameOutsideBlock, MemorySound;
    MemoryPlain(start, mem, a20, head, end, blocks, held);
    KeptLose(start.mem, start.blocks, mem, blocks, held, mem', blocks', b);
    MemoryPlain(start, mem', a20, head, end, blocks', held - {b});
  }

  /** The launch is undone as far as memory goes. */
  lemma {:induction false} MemoryRestored(start: Start, mem: Memory, a20: bool, head: nat, end: nat, blocks: seq<Block>)
    requires MemorySound(start, mem, [], a20, head, end, blocks, {})
    ensures Owned(blocks) == Owned(start.blocks) && SameOutsideFree(start.mem, mem, start.blocks)
  {
    hide IsChain, Kept, MemorySound, SameOutsideFree, Owned;
    MemoryPlain(start, mem, a20, head, end, blocks, {});
    KeptNothing(start.mem, start.blocks, mem, blocks);
  }

  /** A held block lies inside the arena and inside memory. */
  lemma {:induction false} HeldInMemory(start: Start, mem: Memory, a20: bool, head: nat, end: nat, blocks: seq<Block>,
                                        held: set<Block>, b: Block)
    requires MemorySound(start, mem, [], a20, head, end, blocks, held) && b in held
    ensures b.Next() <= SEGMENT_LIMIT && McbChain.RECORD_BYTES * b.Next() <= |mem|
  {
    hide InFree, SameOutsideFree, MemorySound;
    MemoryPlain(start, mem, a20, head, end, blocks, held);
    assert b in Owned(blocks);
    TiledIsOrdered(blocks, head, end);
    var k :| 0 <= k < |blocks| && blocks[k] == b;
    assert blocks[k].Next() <= end;
  }
}

/** SETBLOCK on a paragraph that is no header of the chain but looks like one:
    the segment below the caller's block is read without walking the chain. */
module ArenaStray {
  import opened GuestMemory
  import opened GuestMachine
  import opened McbChain
  import opened McbBytes
  import opened McbBlocks
  import opened McbCoalesce
  import opened MemoryArena

  predicate OffChain(blocks: seq<Block>, segment: nat) {
    forall i :: 0 <= i < |blocks| ==> blocks[i].segment != segment
  }

  /** One paragraph written anywhere keeps the chain exactly if it is no header,
      or the very header that stands there already. */
  lemma {:induction false} StrayWrite(m: Memory, head: nat, end: nat, blocks: seq<Block>, segment: nat, r: seq<byte>)
    requires IsChain(m, head, end, blocks) && HasRecord(|m|, segment) && |r| == RECORD_BYTES
    ensures IsChain(Put(m, segment, r), head, end, blocks) <==>
      forall i :: 0 <= i < |blocks| && blocks[i].segment == segment ==> HeaderIs(r, blocks[i], i == |blocks| - 1)
  {
    hide Put, RecordAt, HeaderIs;
    RecordAfterPut(m, segment, r);
    var m' := Put(m, segment, r);
    forall i | 0 <= i < |blocks|
      ensures HeaderAt(m', blocks[i], i == |blocks| - 1) <==>
        (blocks[i].segment == segment ==> HeaderIs(r, blocks[i], i == |blocks| - 1))
    {
      assert HeaderAt(m, blocks[i], i == |blocks| - 1);
    }
    if forall i :: 0 <= i < |blocks| && blocks[i].segment == segment ==> HeaderIs(r, blocks[i], i == |blocks| - 1) {
      assert Decoded(m', blocks);
    } else {
      var i :| 0 <= i < |blocks| && blocks[i].segment == segment && !HeaderIs(r, blocks[i], i == |blocks| - 1);
      assert !HeaderAt(m', blocks[i], i == |blocks| - 1);
    }
  }

  /** The record at a segment after it has taken in everything behind it that
      looks like a free block. */
  function Gather(m: Memory, segment: u16, r: seq<byte>): (whole: seq<byte>)
    requires |r| == RECORD_BYTES && ExtentValid(segment, r)
    ensures |whole| == RECORD_BYTES && ExtentValid(segment, whole)
    ensures Owner(whole) == Owner(r) && Size(whole) >= Size(r) && (SignatureValid(r) ==> SignatureValid(whole))
    decreases SEGMENT_LIMIT - Size(r)
  {
    var next := segment + Size(r) + 1;
    if Signature(r) == LAST || next >= SEGMENT_LIMIT || !HasRecord(|m|, next) then r
    else
      var following := RecordAt(m, next);
      if !SignatureValid(following) || !ExtentValid(next, following) || Owner(following) != 0 then r
      else Gather(m, segment, Joined(r, following))
  }

  /** What a record says lies behind it cannot be a record. */
  ghost predicate Broken(m: Memory, segment: u16, r: seq<byte>)
    requires |r| == RECORD_BYTES
  {
    var next := segment + Size(r) + 1;
    && Signature(r) != 0x5a
    && (next >= 0x1_0000
        || (HasRecord(|m|, next) && (!SignatureValid(RecordAt(m, next)) || !ExtentValid(next, RecordAt(m, next)))))
  }

  /** The header of the resized block and the one of what it gives up. */
  function Taken(whole: seq<byte>, paragraphs: u16, psp: u16): (r: seq<byte>)
    requires |whole| == RECORD_BYTES
    ensures |r| == RECORD_BYTES && Owner(r) == psp && Size(r) == paragraphs && r[5..] == whole[5..]
    ensures Signature(r) == if paragraphs == Size(whole) then Signature(whole) else 0x4d
  {
    if paragraphs == Size(whole) then SetOwner(whole, psp)
    else SetSize(SetSignature(SetOwner(whole, psp), NORMAL), paragraphs)
  }

  function Rest(before: seq<byte>, whole: seq<byte>, paragraphs: u16): (r: seq<byte>)
    requires |before| == RECORD_BYTES && |whole| == RECORD_BYTES && paragraphs < Size(whole)
    ensures |r| == RECORD_BYTES && Signature(r) == Signature(whole) && Owner(r) == 0 && Size(r) == Size(whole) - paragraphs - 1
    ensures r[5..] == before[5..]
  {
    SetSize(SetOwner(SetSignature(before, Signature(whole)), 0), Size(whole) - paragraphs - 1)
  }

  /** Memory after the resize. */
  function Resized(m: Memory, segment: u16, whole: seq<byte>, paragraphs: u16, psp: u16): (after: Memory)
    requires |whole| == RECORD_BYTES && paragraphs <= Size(whole) && HasRecord(|m|, segment)
    requires paragraphs < Size(whole) ==> HasRecord(|m|, segment + paragraphs + 1)
    ensures |after| == |m|
  {
    var rest := segment + paragraphs + 1;
    Put(if paragraphs == Size(whole) then m else Put(m, rest, Rest(RecordAt(m, rest), whole, paragraphs)),
        segment, Taken(whole, paragraphs, psp))
  }

  /** The remainder falls on no header, or says what the header there says. */
  predicate Harmless(blocks: seq<Block>, segment: u16, whole: seq<byte>, paragraphs: u16)
    requires |whole| == RECORD_BYTES
  {
    paragraphs < Size(whole) ==>
      forall i :: 0 <= i < |blocks| && blocks[i].segment == segment + paragraphs + 1 ==>
        && blocks[i].owner == 0 && blocks[i].size == Size(whole) - paragraphs - 1
        && Signature(whole) == if i == |blocks| - 1 then LAST else NORMAL
  }

  /** Only the last record written to a paragraph counts. */
  lemma {:induction false} PutTwice(m: Memory, segment: nat, r1: seq<byte>, r2: seq<byte>)
    requires HasRecord(|m|, segment) && |r1| == RECORD_BYTES && |r2| == RECORD_BYTES
    ensures Put(Put(m, segment, r1), segment, r2) == Put(m, segment, r2)
  {
    hide Put;
    forall a | 0 <= a < |m|
      ensures Put(Put(m, segment, r1), segment, r2)[a] == Put(m, segment, r2)[a]
    {
      PutByte(m, segment, r1, a);
      PutByte(Put(m, segment, r1), segment, r2, a);
      PutByte(m, segment, r2, a);
    }
  }

  lemma {:induction false} PutAround(m: Memory, segment: nat, r1: seq<byte>, other: nat, r: seq<byte>, r2: seq<byte>)
    requires HasRecord(|m|, segment) && HasRecord(|m|, other) && other != segment
    requires |r1| == RECORD_BYTES && |r2| == RECORD_BYTES && |r| == RECORD_BYTES
    ensures Put(Put(Put(m, segment, r1), other, r), segment, r2) == Put(Put(m, other, r), segment, r2)
  {
    hide Put;
    var m1, m2 := Put(m, segment, r1), Put(m, other, r);
    forall a | 0 <= a < |m|
      ensures Put(Put(m1, other, r), segment, r2)[a] == Put(m2, segment, r2)[a]
    {
      PutByte(m, segment, r1, a);
      PutByte(m1, other, r, a);
      PutByte(Put(m1, other, r), segment, r2, a);
      PutByte(m, other, r, a);
      PutByte(m2, segment, r2, a);
    }
  }

  /** A write that leaves the chain as it is. */
  method WriteStray(arena: Arena, segment: u16, record: seq<byte>) returns (status: MemoryStatus)
    requires arena.Chained() && arena.Sound() && |record| == RECORD_BYTES && HasRecord(|arena.machine.mem|, segment)
    requires OffChain(arena.blocks, segment)
    modifies arena.machine`mem, arena.machine`faults, arena`poisoned, arena`trace
    ensures arena.machine.Valid() && |arena.machine.mem| == |old(arena.machine.mem)|
    ensures arena.machine.faults >= old(arena.machine.faults) && status in {MemoryOk, MachineFault, MachinePoisoned}
    ensures status == MachinePoisoned ==>
      arena.poisoned && (old(arena.poisoned) || arena.machine.faults >= old(arena.machine.faults) + 2)
    ensures status != MachinePoisoned ==> arena.Chained() && arena.Sound() && arena.poisoned == old(arena.poisoned)
    ensures status == MemoryOk ==> arena.machine.mem == Put(old(arena.machine.mem), segment, record)
    ensures status == MachineFault ==> arena.machine.mem == old(arena.machine.mem)
    ensures arena.machine.faults == old(arena.machine.faults) <==> status == MemoryOk
  {
    hide IsChain, Put, AllTile;
    StrayWrite(arena.machine.mem, arena.head, arena.end, arena.blocks, segment, record);
    ghost var trace := arena.trace;
    status := arena.ReplaceRecord(segment, record);
    if status == MemoryOk { AllTileSteps(trace, arena.machine.mem, arena.head, arena.end, arena.blocks); }
  }

  /** Take in what looks free behind the record, one write each. */
  method CoalesceStray(arena: Arena, segment: u16, record: seq<byte>) returns (status: MemoryStatus, whole: seq<byte>)
    requires arena.Chained() && arena.Sound() && OffChain(arena.blocks, segment)
    requires HasRecord(|arena.machine.mem|, segment) && record == RecordAt(arena.machine.mem, segment)
    requires SignatureValid(record) && ExtentValid(segment, record)
    modifies arena.machine`mem, arena.machine`faults, arena`poisoned, arena`trace
    ensures arena.machine.Valid() && |arena.machine.mem| == |old(arena.machine.mem)|
    ensures arena.machine.faults >= old(arena.machine.faults) && |whole| == RECORD_BYTES
    ensures status in {MemoryOk, ArenaDamaged, MachineFault, MachinePoisoned}
    ensures status == MachinePoisoned ==>
      arena.poisoned && (old(arena.poisoned) || arena.machine.faults >= old(arena.machine.faults) + 2)
    ensures status == ArenaDamaged ==> Broken(old(arena.machine.mem), segment, whole)
    ensures status == MachineFault && arena.machine.faults == old(arena.machine.faults) ==>
      !HasRecord(|arena.machine.mem|, segment + Size(whole) + 1)
    ensures status != MachinePoisoned ==>
      && arena.Chained() && arena.Sound() && arena.poisoned == old(arena.poisoned)
      && arena.machine.mem == Put(old(arena.machine.mem), segment, whole)
    ensures status == MemoryOk ==>
      arena.machine.faults == old(arena.machine.faults) && whole == Gather(old(arena.machine.mem), segment, record)
  {
    hide IsChain, Put, AllTile, RecordAt, Gather, Joined;
    ghost var m0 := arena.machine.mem;
    whole := record;
    PutSame(m0, segment);
    GatherStep(m0, segment, whole);
    var steps := 0;
    while Signature(whole) != LAST
      invariant arena.Chained() && arena.Sound() && arena.poisoned == old(arena.poisoned)
      invariant arena.machine.faults == old(arena.machine.faults) && |arena.machine.mem| == |m0|
      invariant |whole| == RECORD_BYTES && ExtentValid(segment, whole) && SignatureValid(whole)
      invariant arena.machine.mem == Put(m0, segment, whole)
      invariant Gather(m0, segment, whole) == Gather(m0, segment, record)
      invariant steps <= Size(whole)
      decreases SEGMENT_LIMIT - Size(whole)
    {
      steps := steps + 1;
      if steps > MAXIMUM_WALK { return ArenaDamaged, whole; }
      var next := segment + Size(whole) + 1;
      if next >= SEGMENT_LIMIT { return ArenaDamaged, whole; }
      RecordAfterPut(m0, segment, whole);
      GatherStep(m0, segment, whole);
      var following;
      status, following := arena.ReadMcb(next);
      if status != MemoryOk { return; }
      if Owner(following) != 0 { return MemoryOk, whole; }
      var joined := Joined(whole, following);
      JoinedFields(whole, following);
      status := WriteStray(arena, segment, joined);
      if status != MemoryOk { return; }
      PutTwice(m0, segment, whole, joined);
      whole := joined;
    }
    GatherStep(m0, segment, whole);
    return MemoryOk, whole;
  }

  lemma {:induction false} JoinedFields(record: seq<byte>, following: seq<byte>)
    requires |record| == RECORD_BYTES && |following| == RECORD_BYTES && Size(record) + Size(following) + 1 < SEGMENT_LIMIT
    ensures var r := Joined(record, following);
      Size(r) == Size(record) + Size(following) + 1 && Signature(r) == Signature(following) && Owner(r) == Owner(record)
  {
  }

  /** One unfolding of `Gather`. */
  lemma {:induction false} GatherStep(m: Memory, segment: u16, r: seq<byte>)
    requires |r| == RECORD_BYTES && ExtentValid(segment, r)
    ensures Signature(r) == LAST ==> Gather(m, segment, r) == r
    ensures var next := segment + Size(r) + 1;
      Signature(r) != LAST && next < SEGMENT_LIMIT && HasRecord(|m|, next) ==>
        var following := RecordAt(m, next);
        && (Owner(following) != 0 ==> Gather(m, segment, r) == r)
        && (SignatureValid(following) && ExtentValid(next, following) && Owner(following) == 0 ==>
              Size(r) + Size(following) + 1 < SEGMENT_LIMIT
                && Gather(m, segment, r) == Gather(m, segment, Joined(r, following)))
  {
    hide RecordAt, Joined;
  }

  /** Write the two headers of the split; a failed second write is unwound. */
  method SplitStray(arena: Arena, segment: u16, taken: seq<byte>, rest: u16, restBefore: seq<byte>, restAfter: seq<byte>)
    returns (status: MemoryStatus)
    requires arena.Chained() && arena.Sound() && OffChain(arena.blocks, segment) && rest != segment
    requires |taken| == RECORD_BYTES && |restAfter| == RECORD_BYTES
    requires HasRecord(|arena.machine.mem|, segment) && HasRecord(|arena.machine.mem|, rest)
    requires restBefore == RecordAt(arena.machine.mem, rest)
    modifies arena.machine`mem, arena.machine`faults, arena`poisoned, arena`trace
    ensures arena.machine.Valid() && |arena.machine.mem| == |old(arena.machine.mem)|
    ensures arena.machine.faults >= old(arena.machine.faults) && status in {MemoryOk, MachineFault, MachinePoisoned}
    ensures status == MachinePoisoned ==>
      arena.poisoned && (old(arena.poisoned) || arena.machine.faults >= old(arena.machine.faults) + 2)
    ensures status == MachineFault ==> arena.machine.mem == old(arena.machine.mem)
    ensures status == MemoryOk ==>
      && arena.machine.faults == old(arena.machine.faults)
      && arena.machine.mem == Put(Put(old(arena.machine.mem), rest, restAfter), segment, taken)
      && (arena.Chained() <==> Fits(arena.blocks, rest, restAfter))
    ensures status != MachinePoisoned ==>
      && arena.poisoned == old(arena.poisoned) && (status == MachineFault ==> arena.Chained())
      && (Fits(arena.blocks, rest, restAfter) ==> arena.Chained() && arena.Sound())
    ensures arena.machine.faults == old(arena.machine.faults) ==> status == MemoryOk
  {
    hide IsChain, Put, AllTile, RecordAt, HeaderIs;
    ghost var m0, t0 := arena.machine.mem, arena.trace;
    ghost var head, end, blocks := arena.head, arena.end, arena.blocks;
    StrayWrite(m0, head, end, blocks, rest, restAfter);
    status := arena.ReplaceRecord(rest, restAfter);
    if status != MemoryOk { return; }
    ghost var m1, t1 := arena.machine.mem, arena.trace;
    if IsChain(m1, head, end, blocks) { AllTileSteps(t0, m1, head, end, blocks); }
    OffChainWrite(m1, head, end, blocks, segment, taken);
    status := arena.ReplaceRecord(segment, taken);
    if status == MemoryOk {
      if IsChain(m1, head, end, blocks) { AllTileSteps(t1, arena.machine.mem, head, end, blocks); }
      return;
    }
    var unwind := arena.ReplaceRecord(rest, restBefore);
    if status == MachinePoisoned || unwind != MemoryOk {
      arena.poisoned := true;
      return MachinePoisoned;
    }
    PutUndo(m0, rest, restAfter);
    if IsChain(m1, head, end, blocks) { AllTileSteps(t1, arena.machine.mem, head, end, blocks); }
  }

  ghost predicate Fits(blocks: seq<Block>, segment: nat, r: seq<byte>) {
    forall i :: 0 <= i < |blocks| && blocks[i].segment == segment ==> HeaderIs(r, blocks[i], i == |blocks| - 1)
  }

  /** Off the chain, a write neither makes nor breaks one. */
  lemma {:induction false} OffChainWrite(m: Memory, head: nat, end: nat, blocks: seq<Block>, segment: nat, r: seq<byte>)
    requires HasRecord(|m|, segment) && |r| == RECORD_BYTES && OffChain(blocks, segment)
    ensures IsChain(Put(m, segment, r), head, end, blocks) <==> IsChain(m, head, end, blocks)
  {
    hide Put, RecordAt, HeaderIs;
    RecordAfterPut(m, segment, r);
    var m' := Put(m, segment, r);
    if IsChain(m, head, end, blocks) { ChainFrame(m, m', head, end, blocks); }
    if IsChain(m', head, end, blocks) { ChainFrame(m', m, head, end, blocks); }
  }

  lemma {:induction false} HarmlessFits(blocks: seq<Block>, segment: u16, whole: seq<byte>, paragraphs: u16, before: seq<byte>)
    requires |whole| == RECORD_BYTES && |before| == RECORD_BYTES && paragraphs < Size(whole)
    ensures Fits(blocks, segment + paragraphs + 1, Rest(before, whole, paragraphs)) <==>
      Harmless(blocks, segment, whole, paragraphs)
  {
    hide Rest, Size, Signature, Owner;
  }

  /** SETBLOCK where no block of the chain begins.  It changes at most the two
      paragraphs it writes headers to, and the chain outlives it exactly if the
      second one hits no header of the chain or repeats it. */
  method ResizeStray(arena: Arena, blockSegment: u16, currentPsp: u16, paragraphs: u16)
    returns (status: MemoryStatus, maximum: u16, whole: seq<byte>)
    requires arena.Ready() == MemoryOk && arena.Chained() && arena.Sound() && OffChain(arena.blocks, HeaderOf(blockSegment))
    modifies arena.machine`mem, arena.machine`faults, arena`poisoned, arena`trace
    ensures arena.machine.Valid() && |arena.machine.mem| == |old(arena.machine.mem)| && |whole| == RECORD_BYTES
    ensures status in {MemoryOk, NotEnoughMemory, ArenaDamaged, MachineFault, MachinePoisoned}
    ensures status == MachinePoisoned ==>
      arena.poisoned && (old(arena.poisoned) || arena.machine.faults >= old(arena.machine.faults) + 2)
    ensures status in {MemoryOk, NotEnoughMemory} ==>
      var header, m0 := HeaderOf(blockSegment), old(arena.machine.mem);
      && HasRecord(|m0|, header) && SignatureValid(RecordAt(m0, header)) && ExtentValid(header, RecordAt(m0, header))
      && whole == Gather(m0, header, RecordAt(m0, header)) && maximum == Size(whole)
      && (status == MemoryOk <==> paragraphs <= maximum) && arena.machine.faults == old(arena.machine.faults)
    ensures status == NotEnoughMemory ==> arena.machine.mem == Put(old(arena.machine.mem), HeaderOf(blockSegment), whole)
    ensures status == MemoryOk ==>
      && (paragraphs < maximum ==> HasRecord(|arena.machine.mem|, HeaderOf(blockSegment) + paragraphs + 1))
      && arena.machine.mem == Resized(old(arena.machine.mem), HeaderOf(blockSegment), whole, paragraphs, currentPsp)
      && (arena.Chained() <==> Harmless(arena.blocks, HeaderOf(blockSegment), whole, paragraphs))
      && (arena.Chained() ==> arena.Sound())
    ensures status !in {MemoryOk, MachinePoisoned} ==> arena.Chained()
    ensures status == ArenaDamaged ==>
      var header, m0 := HeaderOf(blockSegment), old(arena.machine.mem);
      && HasRecord(|m0|, header)
      && (SignatureValid(RecordAt(m0, header)) && ExtentValid(header, RecordAt(m0, header)) ==> Broken(m0, header, whole))
    ensures status == MachineFault && arena.machine.faults == old(arena.machine.faults) ==>
      var header := HeaderOf(blockSegment);
      || !HasRecord(|arena.machine.mem|, header) || !HasRecord(|arena.machine.mem|, header + Size(whole) + 1)
      || !HasRecord(|arena.machine.mem|, header + paragraphs + 1)
  {
    hide IsChain, Put, AllTile, RecordAt, Gather, Taken, Rest, SetOwner, SetSize, SetSignature, Harmless, Fits, HeaderIs,
      Broken;
    maximum, whole := 0, seq(RECORD_BYTES, i => 0);
    var header := HeaderOf(blockSegment);
    ghost var m0 := arena.machine.mem;
    var record;
    status, record := arena.ReadMcb(header);
    if status != MemoryOk { return; }
    status, whole := CoalesceStray(arena, header, record);
    if status != MemoryOk { return; }
    maximum := Size(whole);
    if paragraphs > maximum { return NotEnoughMemory, maximum, whole; }
    status := TakeStray(arena, header, currentPsp, paragraphs, whole, m0);
  }

  /** The allocation at the end of SETBLOCK. */
  method TakeStray(arena: Arena, header: u16, currentPsp: u16, paragraphs: u16, whole: seq<byte>, ghost m0: Memory)
    returns (status: MemoryStatus)
    requires arena.Chained() && arena.Sound() && OffChain(arena.blocks, header)
    requires HasRecord(|m0|, header) && |whole| == RECORD_BYTES && arena.machine.mem == Put(m0, header, whole)
    requires SignatureValid(whole) && ExtentValid(header, whole) && paragraphs <= Size(whole)
    modifies arena.machine`mem, arena.machine`faults, arena`poisoned, arena`trace
    ensures arena.machine.Valid() && |arena.machine.mem| == |old(arena.machine.mem)|
    ensures arena.machine.faults >= old(arena.machine.faults) && status in {MemoryOk, MachineFault, MachinePoisoned}
    ensures status == MachinePoisoned ==>
      arena.poisoned && (old(arena.poisoned) || arena.machine.faults >= old(arena.machine.faults) + 2)
    ensures status == MachineFault && arena.machine.faults == old(arena.machine.faults) ==>
      paragraphs < Size(whole) && !HasRecord(|m0|, header + paragraphs + 1)
    ensures status == MachineFault ==> arena.Chained()
    ensures status == MemoryOk ==>
      && arena.machine.faults == old(arena.machine.faults)
      && (paragraphs < Size(whole) ==> HasRecord(|m0|, header + paragraphs + 1))
      && arena.machine.mem == Resized(m0, header, whole, paragraphs, currentPsp)
      && (arena.Chained() <==> Harmless(arena.blocks, header, whole, paragraphs)) && (arena.Chained() ==> arena.Sound())
  {
    hide IsChain, Put, AllTile, RecordAt, SetOwner, SetSize, SetSignature, Harmless, Fits, HeaderIs;
    RecordAfterPut(m0, header, whole);
    var current;
    status, current := arena.ReadMcb(header);
    if status != MemoryOk { return; }
    var taken := Taken(whole, paragraphs, currentPsp);
    if paragraphs == Size(whole) {
      status := WriteStray(arena, header, taken);
      PutTwice(m0, header, whole, taken);
      HarmlessAlone(arena.blocks, header, whole, paragraphs);
      return;
    }
    var rest: u16 := header + paragraphs + 1;
    var before;
    status, before := arena.ReadRecord(rest);
    if status != MemoryOk { return; }
    var after := Rest(before, whole, paragraphs);
    HarmlessFits(arena.blocks, header, whole, paragraphs, before);
    PutAround(m0, header, whole, rest, after, taken);
    status := SplitStray(arena, header, taken, rest, before, after);
  }

  lemma {:induction false} HarmlessAlone(blocks: seq<Block>, segment: u16, whole: seq<byte>, paragraphs: u16)
    requires |whole| == RECORD_BYTES && paragraphs >= Size(whole)
    ensures Harmless(blocks, segment, whole, paragraphs)
  {
  }

  // ---------- a memory in which the chain does not outlive it ----------

  function Header(signature: byte, owner: u16, size: u16): (r: seq<byte>)
    ensures |r| == RECORD_BYTES && Signature(r) == signature && Owner(r) == owner && Size(r) == size
  {
    SetSize(SetOwner(SetSignature(seq(RECORD_BYTES, i => 0), signature), owner), size)
  }

  /** Two blocks of two paragraphs at 1 and 4; the first one's data begin with
      what looks like the last header of a block of five. */
  function StrayMemory(): (m: Memory)
    ensures |m| == 8 * RECORD_BYTES
  {
    Put(Put(Put(seq(8 * RECORD_BYTES, i => 0), 1, Header(NORMAL, 1, 2)), 4, Header(LAST, 2, 2)), 2, Header(LAST, 9, 5))
  }

  const TWO_BLOCKS: seq<Block> := [Block(1, 2, 1), Block(4, 2, 2)]

  lemma {:induction false} StrayMemoryHeaders()
    ensures RecordAt(StrayMemory(), 1) == Header(NORMAL, 1, 2) && RecordAt(StrayMemory(), 4) == Header(LAST, 2, 2)
    ensures RecordAt(StrayMemory(), 2) == Header(LAST, 9, 5)
    ensures IsChain(StrayMemory(), 1, 7, TWO_BLOCKS)
  {
    hide Put, RecordAt, Header;
    var m0: Memory := seq(8 * RECORD_BYTES, i => 0);
    var m1 := Put(m0, 1, Header(NORMAL, 1, 2));
    var m2 := Put(m1, 4, Header(LAST, 2, 2));
    RecordAfterPut(m0, 1, Header(NORMAL, 1, 2));
    RecordAfterPut(m1, 4, Header(LAST, 2, 2));
    RecordAfterPut(m2, 2, Header(LAST, 9, 5));
  }

  /** With two headers at 1 and 4, the second one says where the chain ends. */
  lemma {:induction false} LastHeaderEnds(m: Memory, end: nat, blocks: seq<Block>)
    requires HasRecord(|m|, 4) && IsChain(m, 1, end, blocks)
    requires RecordAt(m, 1) == Header(NORMAL, 1, 2) && Signature(RecordAt(m, 4)) == LAST
    ensures end == 4 + Size(RecordAt(m, 4)) + 1
  {
    hide RecordAt, Header;
    assert HeaderAt(m, blocks[0], 0 == |blocks| - 1);
    assert blocks[0].Next() == blocks[1].segment;
    assert HeaderAt(m, blocks[1], 1 == |blocks| - 1);
  }

  /** Shrinking that stray block to one paragraph is accepted, its remainder
      overwrites the second block's header, and no chain tiles the arena. */
  lemma {:induction false} StrayBreaksChain(psp: u16)
    ensures var m, stray := StrayMemory(), Header(LAST, 9, 5);
      && IsChain(m, 1, 7, TWO_BLOCKS) && OffChain(TWO_BLOCKS, 2) && RecordAt(m, 2) == stray == Gather(m, 2, stray)
      && !Harmless(TWO_BLOCKS, 2, stray, 1) && !Tiles(Resized(m, 2, stray, 1, psp), 1, 7)
  {
    hide Put, RecordAt, Header, Taken;
    StrayMemoryHeaders();
    var m, stray := StrayMemory(), Header(LAST, 9, 5);
    GatherStep(m, 2, stray);
    var rest := Rest(RecordAt(m, 4), stray, 1);
    var m1 := Put(m, 4, rest);
    RecordAfterPut(m, 4, rest);
    RecordAfterPut(m1, 2, Taken(stray, 1, psp));
    var after := Resized(m, 2, stray, 1, psp);
    assert after == Put(m1, 2, Taken(stray, 1, psp));
    forall blocks: seq<Block> | IsChain(after, 1, 7, blocks)
      ensures false
    {
      LastHeaderEnds(after, 7, blocks);
    }
    assert TWO_BLOCKS[1].segment == 4;
  }
}

/** The MCB arena manager: allocation, resizing and release over guest headers. */
module MemoryArena {
  import opened GuestMemory
  import opened GuestMachine
  import opened McbChain
  import opened McbBytes
  import opened McbBlocks
  import opened McbCoalesce
  import opened McbSurvey
  import opened McbSplit
  import opened McbRelease

  const MAXIMUM_WALK := 0x1_0000
  const GENERATION_MAX := 0xffff_ffff_ffff_ffff

  datatype MemoryStatus =
    | MemoryOk
    | MemoryInvalidArgument
    | InvalidBlock
    | NotEnoughMemory
    | ArenaDamaged
    | MachineFault
    | MachinePoisoned
    | OwnerMismatch
    | GenerationExhausted

  predicate SignatureValid(r: seq<byte>) requires |r| == RECORD_BYTES {
    Signature(r) == NORMAL || Signature(r) == LAST
  }

  predicate ExtentValid(segment: nat, r: seq<byte>) requires |r| == RECORD_BYTES {
    segment + Size(r) < SEGMENT_LIMIT
  }

  ghost predicate AllTile(trace: seq<Memory>, head: nat, end: nat) {
    forall i :: 0 <= i < |trace| ==> Tiles(trace[i], head, end)
  }

  lemma {:induction false} AllTileSteps(trace: seq<Memory>, m: Memory, head: nat, end: nat, blocks: seq<Block>)
    requires AllTile(trace, head, end) && IsChain(m, head, end, blocks)
    ensures AllTile(trace + [m], head, end)
  {
    hide IsChain;
    assert Tiles(m, head, end);
  }

  /** A block's own segment follows its header, in 16-bit arithmetic. */
  function BlockOf(header: nat): (block: nat) { if header == 0xffff then 0 else header + 1 }
  function HeaderOf(block: u16): (header: u16)
    ensures BlockOf(header) == block
  {
    if block == 0 then 0xffff else block - 1
  }

  /** What a successful allocation did to the chain: block `k` of the merged
      chain, chosen by the strategy, gave its low or its high end away. */
  ghost predicate Granted(before: seq<Block>, after: seq<Block>, strategy: nat, owner: nat, size: nat, k: nat,
                          blockSegment: u16)
  {
    var merged := Merge(before);
    && Chosen(strategy, merged, size, k) && k < |merged| && size <= merged[k].size
    && (strategy <= BEST_FIT ==>
          after == TakeLow(merged, k, size, owner) && blockSegment == BlockOf(merged[k].segment))
    && (strategy > BEST_FIT ==>
          after == TakeHigh(merged, k, size, owner)
          && blockSegment == BlockOf(merged[k].segment + (merged[k].size - size)))
  }

  lemma {:induction false} ChosenCandidate(strategy: nat, blocks: seq<Block>, size: nat, k: nat)
    requires Chosen(strategy, blocks, size, k)
    ensures k < |blocks| && blocks[k].Free() && size <= blocks[k].size
  {
  }

  /** The survey in terms of the strategy's choice. */
  lemma {:induction false} SurveyResult(m: Memory, head: nat, end: nat, blocks: seq<Block>, size: nat, s: Survey,
                                        first: nat, best: nat, last: nat)
    requires IsChain(m, head, end, blocks) && Surveyed(blocks, size, s, first, best, last)
    ensures IsMaximum(blocks, s.maximum) && s.maximum < SEGMENT_LIMIT
    ensures !s.found ==> forall j: nat :: !Candidate(blocks, j, size)
    ensures s.found ==>
      && first < |blocks| && best < |blocks| && last < |blocks|
      && blocks[first].segment == s.first < SEGMENT_LIMIT && Chosen(FIRST_FIT, blocks, size, first)
      && blocks[best].segment == s.best < SEGMENT_LIMIT && Chosen(BEST_FIT, blocks, size, best)
      && blocks[last].segment == s.last < SEGMENT_LIMIT
      && (forall strategy: nat :: strategy > BEST_FIT ==> Chosen(strategy, blocks, size, last))
      && blocks[first].Next() <= SEGMENT_LIMIT && blocks[best].Next() <= SEGMENT_LIMIT
      && blocks[last].Next() <= SEGMENT_LIMIT
  {
    TiledIsOrdered(blocks, head, end);
  }

  /** Chopping up a free block of the merged chain stays inside what was free. */
  lemma {:induction false} TakenInsideFree(m0: Memory, b0: seq<Block>, m1: Memory, b1: seq<Block>, m2: Memory,
                                           head: nat, end: nat, k: nat)
    requires IsChain(m0, head, end, b0) && IsChain(m1, head, end, b1) && Merge(b1) == Merge(b0)
    requires SameOutsideFree(m0, m1, b0) && k < |b1| && b1[k].Free() && SameOutsideBlock(m1, m2, b1[k])
    ensures SameOutsideFree(m0, m2, b0)
  {
    hide SameOutsideFree, SameOutsideBlock, InFree, Decoded, Merge;
    FreeBlockIsOutside(m1, m2, b1, k);
    SameMerge(b0, b1, head, end);
    SameOutsideFreeTrans(m0, m1, m2, b0, b1);
  }

  /** A prepared change of ownership: the exact header that publishes it. */
  datatype Rebind = Rebind(header: u16, expected: u16, newOwner: u16, record: seq<byte>) {
    /** The record is a header of the new owner's that could stand there. */
    predicate WellFormed() {
      && expected != 0 && newOwner != 0 && |record| == RECORD_BYTES
      && SignatureValid(record) && ExtentValid(header, record) && Owner(record) == newOwner
    }
  }

  /** Clear the owner of the block whose header is at `header`, if any is. */
  function Cleared(blocks: seq<Block>, header: nat): (after: seq<Block>)
    ensures |after| == |blocks|
  {
    seq(|blocks|, i requires 0 <= i < |blocks| =>
      if blocks[i].segment == header then blocks[i].(owner := 0) else blocks[i])
  }

  lemma {:induction false} ClearChain(m: Memory, head: nat, end: nat, blocks: seq<Block>, header: nat)
    requires IsChain(m, head, end, blocks) && HasRecord(|m|, header)
    ensures IsChain(Put(m, header, SetOwner(RecordAt(m, header), 0)), head, end, Cleared(blocks, header))
  {
    hide Put, RecordAt, SetOwner;
    var r := SetOwner(RecordAt(m, header), 0);
    RecordAfterPut(m, header, r);
    var m', after := Put(m, header, r), Cleared(blocks, header);
    forall i | 0 <= i < |after|
      ensures HeaderAt(m', after[i], i == |after| - 1)
    {
      assert HeaderAt(m, blocks[i], i == |blocks| - 1);
    }
    assert Tiled(after, head, end);
  }

  /** At most one block has a given header. */
  lemma {:induction false} WalkOnly(m: Memory, head: nat, end: nat, blocks: seq<Block>, k: nat)
    requires IsChain(m, head, end, blocks) && k < |blocks|
    ensures forall j :: 0 <= j < |blocks| && blocks[j].segment == blocks[k].segment ==> j == k
  {
    TiledIsOrdered(blocks, head, end);
  }

  lemma {:induction false} SwallowedSize(b0: seq<Block>, blocks: seq<Block>, k: nat, n: nat)
    requires k + n < |b0| && b0[k].segment < b0[k + n].Next() && blocks == Swallow(b0, k, n)
    ensures k < |blocks| && blocks[k].segment == b0[k].segment
    ensures blocks[k].size == b0[k + n].Next() - b0[k].segment - 1
  {
  }

  lemma {:induction false} FreshChain(m: Memory, head: nat, end: nat, record: seq<byte>)
    requires head < end <= SEGMENT_LIMIT && HasRecord(|m|, head) && HeaderIs(record, Block(head, end - head - 1, 0), true)
    ensures IsChain(Put(m, head, record), head, end, [Block(head, end - head - 1, 0)])
  {
    hide RecordAt, Put;
    RecordAfterPut(m, head, record);
  }

  /** Bytes five and up of a record, but for a name from byte eight on. */
  ghost predicate TailNamed(r: seq<byte>, before: seq<byte>, name: seq<byte>) {
    && |r| == RECORD_BYTES == |before| && |name| <= 8 && (forall i :: 0 <= i < |name| ==> r[8 + i] == name[i])
    && forall i :: 5 <= i < 16 && !(8 <= i < 8 + |name|) ==> r[i] == before[i]
  }

  lemma {:induction false} TailOfTaken(current: seq<byte>, owner: u16, name: seq<byte>)
    requires |current| == RECORD_BYTES && |name| <= 8
    ensures TailNamed(SetName(SetOwner(current, owner), name), current, name)
  {
  }

  lemma {:induction false} TailResized(r: seq<byte>, signature: byte, size: u16)
    requires |r| == RECORD_BYTES
    ensures forall i :: 5 <= i < 16 ==> SetSize(SetSignature(r, signature), size)[i] == r[i]
  {
  }

  lemma {:induction false} NamedAfterPut(m: Memory, segment: nat, taken: seq<byte>, name: seq<byte>)
    requires HasRecord(|m|, segment) && TailNamed(taken, RecordAt(m, segment), name)
    ensures NameWritten(m, Put(m, segment, taken), segment, name)
  {
    hide Put, RecordAt, NameWritten;
    RecordAfterPut(m, segment, taken);
    NameStays(m, Put(m, segment, taken), segment, name);
  }

  lemma {:induction false} NamedAfterSplit(m: Memory, segment: nat, taken: seq<byte>, rest: nat, restAfter: seq<byte>,
                                           name: seq<byte>)
    requires HasRecord(|m|, segment) && HasRecord(|m|, rest) && rest != segment && |restAfter| == RECORD_BYTES
    requires TailNamed(taken, RecordAt(m, segment), name)
    ensures NameWritten(m, Put(Put(m, rest, restAfter), segment, taken), segment, name)
  {
    hide Put, RecordAt, NameWritten;
    RecordAfterPut(m, rest, restAfter);
    RecordAfterPut(Put(m, rest, restAfter), segment, taken);
    NameStays(m, Put(Put(m, rest, restAfter), segment, taken), segment, name);
  }

  lemma {:induction false} NamedBeforeSplit(m: Memory, segment: nat, lower: seq<byte>, upper: nat, taken: seq<byte>,
                                            name: seq<byte>)
    requires HasRecord(|m|, segment) && HasRecord(|m|, upper) && upper != segment && |lower| == RECORD_BYTES
    requires TailNamed(taken, RecordAt(m, upper), name)
    ensures NameWritten(m, Put(Put(m, upper, taken), segment, lower), upper, name)
  {
    hide Put, RecordAt, NameWritten;
    RecordAfterPut(m, upper, taken);
    RecordAfterPut(Put(m, upper, taken), segment, lower);
    NameStays(m, Put(Put(m, upper, taken), segment, lower), upper, name);
  }

  /** The bytes a grant leaves at its block's header. */
  ghost predicate GrantedBytes(m: Memory, end: nat, blockSegment: u16, owner: u16, name: seq<byte>, size: u16) {
    var header := if blockSegment == 0 then 0xffff else blockSegment - 1;
    && RawHeader(m, Block(header, size, owner), header + size + 1 == end)
    && 16 * header + 16 <= |m| && |name| <= 8 && forall i :: 0 <= i < |name| ==> m[16 * header + 8 + i] == name[i]
  }

  lemma {:induction false} GrantLeaves(m0: Memory, m: Memory, head: nat, end: nat, before: seq<Block>, blocks: seq<Block>,
                                       strategy: nat, owner: u16, name: seq<byte>, size: u16, k: nat, blockSegment: u16)
    requires IsChain(m, head, end, blocks) && Granted(before, blocks, strategy, owner, size, k, blockSegment)
    requires NameWritten(m0, m, HeaderOf(blockSegment), name)
    ensures GrantedBytes(m, end, blockSegment, owner, name, size)
  {
    hide Decoded, Merge, Chosen, RawHeader;
    ChainBytes(m, head, end, blocks);
    TiledIsOrdered(blocks, head, end);
    var merged := Merge(before);
    var i := if strategy <= BEST_FIT || size == merged[k].size then k else k + 1;
    assert blocks[i].size == size && blocks[i].owner == owner && BlockOf(blocks[i].segment) == blockSegment;
    assert RawHeader(m, blocks[i], i == |blocks| - 1);
  }

  /** The header of an arena that is one free block. */
  function FreshRecord(size: u16): (r: seq<byte>)
    ensures |r| == RECORD_BYTES && Signature(r) == LAST && Owner(r) == 0 && Size(r) == size
  {
    SetSize(SetOwner(SetSignature(seq(RECORD_BYTES, i => 0), LAST), 0), size)
  }

  lemma {:induction false} FreshBytes(m: Memory, head: nat, size: u16)
    requires HasRecord(|m|, head)
    ensures var after := Put(m, head, FreshRecord(size));
      && RawHeader(after, Block(head, size, 0), true)
      && (forall a :: 16 * head + 5 <= a < 16 * head + 16 ==> after[a] == 0)
      && (forall a :: 0 <= a < |m| && !(16 * head <= a < 16 * head + 16) ==> after[a] == m[a])
  {
    hide Put, RecordAt, Word;
    var r, after := FreshRecord(size), Put(m, head, FreshRecord(size));
    RecordAfterPut(m, head, r);
    HeaderBytes(after, Block(head, size, 0), true);
    RecordBytes(after, head);
    forall a | 16 * head + 5 <= a < 16 * head + 16 ensures after[a] == 0 {
      assert r[a - 16 * head] == 0;
      assert RecordAt(after, head)[a - 16 * head] == after[a];
    }
  }

  lemma {:induction false} FreshTrace(head: nat, end: nat)
    ensures AllTile([], head, end)
  {
  }

  class Arena {
    const machine: Machine
    const identity: nat
    var head: u16
    var generation: nat
    var strategy: byte
    var initialized: bool
    var poisoned: bool
    /** The chain guest memory holds, and where it ends. */
    ghost var blocks: seq<Block>
    ghost var end: nat
    /** Guest memory after every header write that went through. */
    ghost var trace: seq<Memory>

    ghost predicate Chained() reads this, machine {
      && machine.Valid() && RECORD_BYTES * end <= |machine.mem|
      && IsChain(machine.mem, head, end, blocks)
    }

    /** Every header write so far left a tiling chain behind. */
    ghost predicate Sound() reads this {
      AllTile(trace, head, end)
    }

    constructor (machine: Machine, identity: nat)
      ensures this.machine == machine && this.identity == identity
      ensures !initialized && !poisoned && generation == 0 && trace == []
    {
      this.machine, this.identity := machine, identity;
      head, generation, strategy, initialized, poisoned := 0, 0, 0, false, false;
      trace := [];
    }

    function Ready(): (status: MemoryStatus) reads this {
      if poisoned then MachinePoisoned
      else if !initialized then MemoryInvalidArgument
      else MemoryOk
    }

    method ReadRecord(segment: u16) returns (status: MemoryStatus, record: seq<byte>)
      requires machine.Valid()
      modifies machine`faults
      ensures machine.faults >= old(machine.faults) && |record| == RECORD_BYTES
      ensures status == MemoryOk || status == MachineFault
      ensures status == MemoryOk ==>
        && machine.faults == old(machine.faults) && HasRecord(|machine.mem|, segment)
        && record == RecordAt(machine.mem, segment)
      ensures machine.faults == old(machine.faults) && HasRecord(|machine.mem|, segment) ==> status == MemoryOk
    {
      hide FarRange, Linear, Load, RecordRange;
      RecordIsParagraph(segment, machine.a20);
      RecordRangeWithin(segment, |machine.mem|);
      var machineStatus;
      machineStatus, record := machine.ReadFar(segment, 0, RECORD_BYTES);
      if machineStatus != Ok { return MachineFault, seq(RECORD_BYTES, i => 0); }
      return MemoryOk, record;
    }

    method ReadMcb(segment: u16) returns (status: MemoryStatus, record: seq<byte>)
      requires machine.Valid()
      modifies machine`faults
      ensures machine.faults >= old(machine.faults) && |record| == RECORD_BYTES
      ensures status == MemoryOk || status == MachineFault || status == ArenaDamaged
      ensures status != MachineFault ==>
        && machine.faults == old(machine.faults) && HasRecord(|machine.mem|, segment)
        && record == RecordAt(machine.mem, segment)
        && (status == MemoryOk <==> SignatureValid(record) && ExtentValid(segment, record))
      ensures machine.faults == old(machine.faults) && HasRecord(|machine.mem|, segment) ==> status != MachineFault
    {
      hide RecordAt;
      status, record := ReadRecord(segment);
      if status == MemoryOk && !(SignatureValid(record) && ExtentValid(segment, record)) {
        status := ArenaDamaged;
      }
    }

    /** Replace one header; a failed write is repaired or poisons the arena. */
    method ReplaceRecord(segment: u16, record: seq<byte>) returns (status: MemoryStatus)
      requires machine.Valid() && |record| == RECORD_BYTES
      modifies machine`mem, machine`faults, this`poisoned, this`trace
      ensures machine.Valid() && |machine.mem| == |old(machine.mem)| && machine.faults >= old(machine.faults)
      ensures status == MemoryOk || status == MachineFault || status == MachinePoisoned
      ensures status == MemoryOk ==>
        && machine.faults == old(machine.faults) && poisoned == old(poisoned) && HasRecord(|machine.mem|, segment)
        && machine.mem == Put(old(machine.mem), segment, record)
        && trace == old(trace) + [machine.mem]
      ensures status == MachineFault ==>
        machine.mem == old(machine.mem) && poisoned == old(poisoned) && trace == old(trace)
      ensures status == MachinePoisoned ==> poisoned && (old(poisoned) || machine.faults >= old(machine.faults) + 2)
      ensures machine.faults == old(machine.faults) ==>
        status == if HasRecord(|machine.mem|, segment) then MemoryOk else MachineFault
    {
      hide FarRange, Linear, LinearRange, Store, AgreeOutside;
      RecordIsParagraph(segment, machine.a20);
      RecordRangeWithin(segment, |machine.mem|);
      if HasRecord(|machine.mem|, segment) { PutIsStore(machine.mem, segment, record); }
      var machineStatus, rollback := machine.Replace(Linear(segment, 0, machine.a20), record);
      if machineStatus == Ok {
        trace := trace + [machine.mem];
        return MemoryOk;
      }
      if machineStatus == RollbackFailed {
        poisoned := true;
        return MachinePoisoned;
      }
      return MachineFault;
    }

    /** One header write that turns the chain into `after`. */
    method WriteHeader(segment: u16, record: seq<byte>, ghost after: seq<Block>) returns (status: MemoryStatus)
      requires Chained() && Sound() && |record| == RECORD_BYTES && HasRecord(|machine.mem|, segment)
      requires IsChain(Put(machine.mem, segment, record), head, end, after)
      modifies machine`mem, machine`faults, this`poisoned, this`trace, this`blocks
      ensures machine.Valid() && |machine.mem| == |old(machine.mem)| && machine.faults >= old(machine.faults)
      ensures status == MemoryOk || status == MachineFault || status == MachinePoisoned
      ensures status != MachinePoisoned ==> Chained() && Sound() && poisoned == old(poisoned)
      ensures status == MemoryOk ==>
        && machine.faults == old(machine.faults) && blocks == after
        && machine.mem == Put(old(machine.mem), segment, record)
      ensures status == MachineFault ==> machine.mem == old(machine.mem) && blocks == old(blocks)
      ensures status == MachinePoisoned ==> poisoned && (old(poisoned) || machine.faults >= old(machine.faults) + 2)
      ensures machine.faults == old(machine.faults) ==> status == MemoryOk
    {
      hide IsChain, Put, AllTile;
      status := ReplaceRecord(segment, record);
      if status == MemoryOk {
        AllTileSteps(old(trace), machine.mem, head, end, after);
        blocks := after;
      }
    }

    /** Merge the free blocks behind block `i` into it, one header write each. */
    method CoalesceForward(segment: u16, record: seq<byte>, ghost i: nat)
      returns (status: MemoryStatus, record': seq<byte>, ghost n: nat)
      requires Chained() && Sound() && i < |blocks| && blocks[i].segment == segment
      requires HasRecord(|machine.mem|, segment) && record == RecordAt(machine.mem, segment)
      modifies machine`mem, machine`faults, this`poisoned, this`trace, this`blocks
      ensures machine.Valid() && |machine.mem| == |old(machine.mem)| && machine.faults >= old(machine.faults)
      ensures status == MemoryOk || status == MachineFault || status == MachinePoisoned
      ensures status == MachinePoisoned ==> poisoned && (old(poisoned) || machine.faults >= old(machine.faults) + 2)
      ensures status != MachinePoisoned ==>
        && Chained() && Sound() && poisoned == old(poisoned)
        && Swallowing(old(machine.mem), old(blocks), machine.mem, blocks, head, end, i, n,
                      RecordAt(machine.mem, segment))
      ensures status == MemoryOk ==>
        && machine.faults == old(machine.faults)
        && WholeRun(old(blocks), i, n) && record' == RecordAt(machine.mem, segment)
      ensures machine.faults == old(machine.faults) ==> status == MemoryOk
    {
      hide IsChain, Put, AllTile, Swallow, Swallowing, Merge, AgreeOutside, RecordAt, Tiled, Decoded, Joined;
      ghost var m0, b0 := machine.mem, blocks;
      record', n := record, 0;
      SwallowStarts(m0, b0, head, end, i);
      var steps := 0;
      while Signature(record') != LAST
        invariant Chained() && Sound() && poisoned == old(poisoned) && machine.faults == old(machine.faults)
        invariant |machine.mem| == |m0| && |record'| == RECORD_BYTES && HasRecord(|machine.mem|, segment)
        invariant record' == RecordAt(machine.mem, segment)
        invariant steps == n && i + n < |b0| && Swallowing(m0, b0, machine.mem, blocks, head, end, i, n, record')
        decreases |b0| - n
      {
        SwallowView(m0, b0, machine.mem, blocks, head, end, i, n, record');
        Neighbour(machine.mem, blocks, head, end, i, record');
        steps := steps + 1;
        if steps > MAXIMUM_WALK { return ArenaDamaged, record', n; }
        var next := segment + Size(record') + 1;
        if next >= SEGMENT_LIMIT || next <= segment { return ArenaDamaged, record', n; }
        var following;
        status, following := ReadMcb(next);
        if status != MemoryOk { return; }
        if Owner(following) != 0 {
          SwallowEnds(m0, b0, machine.mem, blocks, head, end, i, n, record');
          return MemoryOk, record', n;
        }
        SwallowSteps(m0, b0, machine.mem, blocks, head, end, i, n, record', following);
        record' := Joined(record', following);
        status := WriteHeader(segment, record', Swallow(b0, i, n + 1));
        if status != MemoryOk { return; }
        n := n + 1;
      }
      SwallowView(m0, b0, machine.mem, blocks, head, end, i, n, record');
      Neighbour(machine.mem, blocks, head, end, i, record');
      SwallowEnds(m0, b0, machine.mem, blocks, head, end, i, n, record');
      status := MemoryOk;
    }

    /** Walk the chain once: merge every free run and note the first, the best
        and the last block that can hold the request. */
    method FindCandidates(requested: u16)
      returns (status: MemoryStatus, survey: Survey, ghost first: nat, ghost best: nat, ghost last: nat)
      requires Chained() && Sound()
      modifies machine`mem, machine`faults, this`poisoned, this`trace, this`blocks
      ensures machine.Valid() && |machine.mem| == |old(machine.mem)| && machine.faults >= old(machine.faults)
      ensures status == MemoryOk || status == MachineFault || status == MachinePoisoned
      ensures status == MachinePoisoned ==> poisoned && (old(poisoned) || machine.faults >= old(machine.faults) + 2)
      ensures status != MachinePoisoned ==>
        && Chained() && Sound() && poisoned == old(poisoned)
        && Merge(blocks) == Merge(old(blocks)) && SameOutsideFree(old(machine.mem), machine.mem, old(blocks))
      ensures status == MemoryOk ==>
        && machine.faults == old(machine.faults)
        && blocks == Merge(old(blocks)) && Surveyed(blocks, requested, survey, first, best, last)
      ensures machine.faults == old(machine.faults) ==> status == MemoryOk
    {
      hide IsChain, AllTile, Merge, RecordAt, Surveying, Surveyed, SameOutsideFree, Settled, Swallowing, WholeRun, Observe;
      ghost var m0, b0, k := machine.mem, blocks, 0;
      survey, first, best, last := NOTHING_SEEN, 0, 0, 0;
      SurveyStarts(m0, b0, head, end, requested);
      var segment: u16 := head;
      HeadSegment(m0, head, end, b0);
      for steps := 0 to MAXIMUM_WALK
        invariant Chained() && Sound() && poisoned == old(poisoned) && machine.faults == old(machine.faults)
        invariant k == steps && Surveying(m0, b0, machine.mem, blocks, head, end, k, requested, survey, first, best, last)
        invariant k < |blocks| && blocks[k].segment == segment
      {
        SurveyView(m0, b0, machine.mem, blocks, head, end, k, requested, survey, first, best, last);
        var record;
        status, record := ReadMcb(segment);
        if status == MachineFault { return; }
        Neighbour(machine.mem, blocks, head, end, k, record);
        if status != MemoryOk { return; }
        if Owner(record) == 0 {
          ghost var m1, b1, n := machine.mem, blocks, 0;
          status, record, n := CoalesceForward(segment, record, k);
          if status == MachinePoisoned { return; }
          SurveyCoalesced(m0, b0, m1, b1, head, end, k, requested, survey, first, best, last,
                          machine.mem, blocks, n, RecordAt(machine.mem, segment));
          SurveyView(m0, b0, machine.mem, blocks, head, end, k, requested, survey, first, best, last);
          if status != MemoryOk { return; }
          Neighbour(machine.mem, blocks, head, end, k, record);
        }
        ghost var f, b, l := SurveyAdvances(m0, b0, machine.mem, blocks, head, end, k, requested, survey, first, best, last);
        survey := Observe(survey, Block(segment, Size(record), Owner(record)), requested);
        first, best, last := f, b, l;
        if Signature(record) == LAST { return MemoryOk, survey, first, best, last; }
        var next := segment + Size(record) + 1;
        if next >= SEGMENT_LIMIT || next <= segment { return ArenaDamaged, survey, first, best, last; }
        segment := next;
        k := k + 1;
      }
      SurveyView(m0, b0, machine.mem, blocks, head, end, k, requested, survey, first, best, last);
      return ArenaDamaged, survey, first, best, last;
    }

    /** Create the hidden header, publish the visible one, unwind in reverse. */
    method CommitSplit(current: u16, currentAfter: seq<byte>, split: u16, splitBefore: seq<byte>, splitAfter: seq<byte>,
                       ghost after: seq<Block>) returns (status: MemoryStatus)
      requires Chained() && Sound() && |currentAfter| == RECORD_BYTES && |splitAfter| == RECORD_BYTES
      requires HasRecord(|machine.mem|, current) && HasRecord(|machine.mem|, split)
      requires splitBefore == RecordAt(machine.mem, split)
      requires IsChain(Put(machine.mem, split, splitAfter), head, end, blocks)
      requires IsChain(Put(Put(machine.mem, split, splitAfter), current, currentAfter), head, end, after)
      modifies machine`mem, machine`faults, this`poisoned, this`trace, this`blocks
      ensures machine.Valid() && |machine.mem| == |old(machine.mem)| && machine.faults >= old(machine.faults)
      ensures status == MemoryOk || status == MachineFault || status == MachinePoisoned
      ensures status != MachinePoisoned ==> Chained() && Sound() && poisoned == old(poisoned)
      ensures status == MemoryOk ==>
        && machine.faults == old(machine.faults) && blocks == after
        && machine.mem == Put(Put(old(machine.mem), split, splitAfter), current, currentAfter)
      ensures status == MachineFault ==> machine.mem == old(machine.mem) && blocks == old(blocks)
      ensures status == MachinePoisoned ==> poisoned && (old(poisoned) || machine.faults >= old(machine.faults) + 2)
      ensures machine.faults == old(machine.faults) ==> status == MemoryOk
    {
      hide IsChain, Put, RecordAt, AllTile;
      ghost var before := blocks;
      var publish := WriteHeader(split, splitAfter, blocks);
      if publish != MemoryOk { return publish; }
      publish := WriteHeader(current, currentAfter, after);
      if publish == MemoryOk { return MemoryOk; }
      ghost var written := trace;
      var unwind := ReplaceRecord(split, splitBefore);
      if publish == MachinePoisoned || unwind != MemoryOk {
        poisoned := true;
        return MachinePoisoned;
      }
      PutUndo(old(machine.mem), split, splitAfter);
      AllTileSteps(written, machine.mem, head, end, before);
      return publish;
    }

    method AllocateLow(segment: u16, requested: u16, owner: u16, name: seq<byte>, ghost k: nat)
      returns (status: MemoryStatus, blockSegment: u16)
      requires Chained() && Sound() && |name| <= 8 && k < |blocks| && blocks[k].segment == segment
      modifies machine`mem, machine`faults, this`poisoned, this`trace, this`blocks
      ensures machine.Valid() && |machine.mem| == |old(machine.mem)| && machine.faults >= old(machine.faults)
      ensures status == ArenaDamaged ==> requested > old(blocks)[k].size
      ensures status in {MemoryOk, ArenaDamaged, MachineFault, MachinePoisoned}
      ensures status != MachinePoisoned ==>
        Chained() && Sound() && poisoned == old(poisoned) && SameOutsideBlock(old(machine.mem), machine.mem, old(blocks)[k])
      ensures status == MemoryOk ==>
        && machine.faults == old(machine.faults) && requested <= old(blocks)[k].size
        && blocks == TakeLow(old(blocks), k, requested, owner) && blockSegment == BlockOf(segment)
        && NameWritten(old(machine.mem), machine.mem, segment, name)
      ensures status == MachineFault || status == ArenaDamaged ==>
        machine.mem == old(machine.mem) && blocks == old(blocks)
      ensures status == MachinePoisoned ==> poisoned && (old(poisoned) || machine.faults >= old(machine.faults) + 2)
      ensures machine.faults == old(machine.faults) && requested <= old(blocks)[k].size ==> status == MemoryOk
    {
      hide IsChain, Put, RecordAt, AllTile, Splice, SameOutsideBlock, SetOwner, SetSize, SetSignature, SetName, Word,
        NameWritten;
      ghost var m0, b := machine.mem, blocks[k];
      SameOutsideSelf(m0, b);
      blockSegment := BlockOf(segment);
      BlockHeader(m0, head, end, blocks, k);
      var current;
      status, current := ReadMcb(segment);
      if status != MemoryOk { return; }
      if requested > Size(current) { return ArenaDamaged, blockSegment; }
      var taken := SetName(SetOwner(current, owner), name);
      if requested == Size(current) {
        ReownChain(m0, head, end, blocks, k, owner, taken);
        TailOfTaken(current, owner, name);
        NamedAfterPut(m0, segment, taken, name);
        status := WriteHeader(segment, taken, Reown(blocks, k, owner));
        return;
      }
      var rest: u16 := segment + requested + 1;
      var restBefore;
      status, restBefore := ReadRecord(rest);
      if status != MemoryOk { return; }
      var restAfter := SetSize(SetOwner(SetSignature(restBefore, Signature(current)), 0), Size(current) - requested - 1);
      TailOfTaken(current, owner, name);
      TailResized(taken, NORMAL, requested);
      taken := SetSize(SetSignature(taken, NORMAL), requested);
      NamedAfterSplit(m0, segment, taken, rest, restAfter, name);
      ghost var low, high := Block(segment, requested, owner), Block(rest, b.size - requested - 1, 0);
      SplitChain(m0, head, end, blocks, k, low, high, taken, restAfter);
      status := CommitSplit(segment, taken, rest, restBefore, restAfter, Splice(blocks, k, 1, [low, high]));
    }

    method AllocateHigh(segment: u16, requested: u16, owner: u16, name: seq<byte>, ghost k: nat)
      returns (status: MemoryStatus, blockSegment: u16)
      requires Chained() && Sound() && |name| <= 8 && k < |blocks| && blocks[k].segment == segment
      modifies machine`mem, machine`faults, this`poisoned, this`trace, this`blocks
      ensures machine.Valid() && |machine.mem| == |old(machine.mem)| && machine.faults >= old(machine.faults)
      ensures status == ArenaDamaged ==> requested > old(blocks)[k].size
      ensures status in {MemoryOk, ArenaDamaged, MachineFault, MachinePoisoned}
      ensures status != MachinePoisoned ==>
        Chained() && Sound() && poisoned == old(poisoned) && SameOutsideBlock(old(machine.mem), machine.mem, old(blocks)[k])
      ensures status == MemoryOk ==>
        && machine.faults == old(machine.faults) && requested <= old(blocks)[k].size
        && blocks == TakeHigh(old(blocks), k, requested, owner)
        && blockSegment == BlockOf(segment + (old(blocks)[k].size - requested))
        && NameWritten(old(machine.mem), machine.mem, segment + (old(blocks)[k].size - requested), name)
      ensures status == MachineFault || status == ArenaDamaged ==>
        machine.mem == old(machine.mem) && blocks == old(blocks)
      ensures status == MachinePoisoned ==> poisoned && (old(poisoned) || machine.faults >= old(machine.faults) + 2)
      ensures machine.faults == old(machine.faults) && requested <= old(blocks)[k].size ==> status == MemoryOk
    {
      hide IsChain, Put, RecordAt, AllTile, Splice, SameOutsideBlock, SetOwner, SetSize, SetSignature, SetName, Word,
        NameWritten;
      ghost var m0, b := machine.mem, blocks[k];
      SameOutsideSelf(m0, b);
      blockSegment := 0;
      BlockHeader(m0, head, end, blocks, k);
      var lower;
      status, lower := ReadMcb(segment);
      if status != MemoryOk { return; }
      if requested > Size(lower) { return ArenaDamaged, 0; }
      if requested == Size(lower) {
        status, blockSegment := AllocateLow(segment, requested, owner, name, k);
        return;
      }
      var gap: u16 := Size(lower) - requested;
      var upper: u16 := segment + gap;
      var upperBefore;
      status, upperBefore := ReadRecord(upper);
      if status != MemoryOk { return; }
      TailResized(upperBefore, Signature(lower), requested);
      TailOfTaken(SetSize(SetSignature(upperBefore, Signature(lower)), requested), owner, name);
      var upperAfter := SetName(SetOwner(SetSize(SetSignature(upperBefore, Signature(lower)), requested), owner), name);
      var lowerAfter := SetOwner(SetSize(SetSignature(lower, NORMAL), gap - 1), 0);
      ghost var low, high := Block(segment, gap - 1, 0), Block(upper, requested, owner);
      SplitChain(m0, head, end, blocks, k, low, high, lowerAfter, upperAfter);
      NamedBeforeSplit(m0, segment, lowerAfter, upper, upperAfter, name);
      status := CommitSplit(segment, lowerAfter, upper, upperBefore, upperAfter, Splice(blocks, k, 1, [low, high]));
      blockSegment := BlockOf(upper);
    }

    /** Allocate by the arena's strategy out of the merged free runs. */
    method Allocate(owner: u16, name: seq<byte>, paragraphs: u16)
      returns (status: MemoryStatus, blockSegment: u16, maximum: u16, ghost k: nat)
      requires Ready() == MemoryOk ==> Chained() && Sound()
      requires machine.Valid() && |name| <= 8
      modifies machine`mem, machine`faults, this`poisoned, this`trace, this`blocks
      ensures machine.Valid() && |machine.mem| == |old(machine.mem)| && machine.faults >= old(machine.faults)
      ensures old(Ready()) != MemoryOk ==> status == old(Ready()) && unchanged(this) && unchanged(machine)
      ensures old(Ready()) == MemoryOk ==> status in {MemoryOk, NotEnoughMemory, MachineFault, MachinePoisoned}
      ensures status == MachinePoisoned ==> poisoned && (old(poisoned) || machine.faults >= old(machine.faults) + 2)
      ensures old(Ready()) == MemoryOk && status != MachinePoisoned ==>
        && Chained() && Sound() && poisoned == old(poisoned)
        && SameOutsideFree(old(machine.mem), machine.mem, old(blocks))
      ensures status == MemoryOk ==> machine.faults == old(machine.faults)
      ensures status == MemoryOk ==>
        && Granted(old(blocks), blocks, strategy, owner, paragraphs, k, blockSegment)
        && RawChain(machine.mem, head, end, blocks)
        && GrantedBytes(machine.mem, end, blockSegment, owner, name, paragraphs)
      ensures old(Ready()) == MemoryOk && status == NotEnoughMemory ==>
        blocks == Merge(old(blocks)) && forall j: nat :: !Candidate(Merge(old(blocks)), j, paragraphs)
      ensures old(Ready()) == MemoryOk && status in {MemoryOk, NotEnoughMemory} ==> IsMaximum(Merge(old(blocks)), maximum)
      ensures old(Ready()) == MemoryOk && status == MachineFault ==> Merge(blocks) == Merge(old(blocks))
      ensures old(Ready()) == MemoryOk && machine.faults == old(machine.faults) ==>
        status == MemoryOk || status == NotEnoughMemory
    {
      hide IsChain, AllTile, Merge, Candidate, Chosen, IsMaximum, SameOutsideFree, SameOutsideBlock, TakeLow, TakeHigh,
        RawChain, GrantedBytes, NameWritten;
      blockSegment, maximum, k := 0, 0, 0;
      status := Ready();
      if status != MemoryOk { return; }
      ghost var m0, b0, first, best, last := machine.mem, blocks, 0, 0, 0;
      var survey;
      status, survey, first, best, last := FindCandidates(paragraphs);
      if status != MemoryOk { return; }
      SurveyResult(machine.mem, head, end, blocks, paragraphs, survey, first, best, last);
      maximum := survey.maximum;
      if !survey.found { return NotEnoughMemory, 0, maximum, 0; }
      var selected: u16;
      if strategy == FIRST_FIT { selected, k := survey.first, first; }
      else if strategy == BEST_FIT { selected, k := survey.best, best; }
      else { selected, k := survey.last, last; }
      ghost var m1, b1 := machine.mem, blocks;
      ChosenCandidate(strategy, blocks, paragraphs, k);
      if strategy > BEST_FIT {
        status, blockSegment := AllocateHigh(selected, paragraphs, owner, name, k);
      } else {
        status, blockSegment := AllocateLow(selected, paragraphs, owner, name, k);
      }
      if status != MachinePoisoned {
        TakenInsideFree(m0, b0, m1, b1, machine.mem, head, end, k);
      }
      if status == MemoryOk {
        ChainBytes(machine.mem, head, end, blocks);
        GrantLeaves(m1, machine.mem, head, end, b0, blocks, strategy, owner, name, paragraphs, k, blockSegment);
      }
    }

    /** Find a header by walking the chain from its head; `whole` says that
        memory does hold the chain, which the walk does not rely on. */
    method LocateMcb(wanted: u16, ghost whole: bool) returns (status: MemoryStatus, record: seq<byte>, ghost k: nat)
      requires machine.Valid() && (whole ==> Chained())
      modifies machine`faults
      ensures machine.faults >= old(machine.faults) && |record| == RECORD_BYTES
      ensures status in {MemoryOk, InvalidBlock, MachineFault, ArenaDamaged}
      ensures status == MemoryOk ==>
        && HasRecord(|machine.mem|, wanted) && record == RecordAt(machine.mem, wanted)
        && SignatureValid(record) && ExtentValid(wanted, record)
      ensures whole && status == MemoryOk ==> k < |blocks| && blocks[k].segment == wanted
      ensures whole && status == InvalidBlock ==> forall j :: 0 <= j < |blocks| ==> blocks[j].segment != wanted
      ensures whole ==> status != ArenaDamaged && (status == MachineFault <==> machine.faults > old(machine.faults))
    {
      hide IsChain, RecordAt, HeaderIs;
      var segment: u16 := head;
      record, k := seq(RECORD_BYTES, i => 0), 0;
      if whole { HeadSegment(machine.mem, head, end, blocks); }
      for steps := 0 to MAXIMUM_WALK
        invariant whole ==> k == steps && k < |blocks| && blocks[k].segment == segment
        invariant whole ==> forall j :: 0 <= j < k ==> blocks[j].segment < wanted
        invariant machine.faults == old(machine.faults) && |record| == RECORD_BYTES
      {
        if whole { WalkView(machine.mem, head, end, blocks, k); }
        status, record := ReadMcb(segment);
        if status == MachineFault { return; }
        if whole { Neighbour(machine.mem, blocks, head, end, k, record); }
        if status != MemoryOk { return; }
        if segment == wanted { return MemoryOk, record, k; }
        if wanted < segment || Signature(record) == LAST {
          return InvalidBlock, record, k;
        }
        var next := segment + Size(record) + 1;
        if next >= SEGMENT_LIMIT || next <= segment { return ArenaDamaged, record, k; }
        segment := next;
        k := k + 1;
      }
      if whole { WalkView(machine.mem, head, end, blocks, k); }
      return ArenaDamaged, record, k;
    }

    /** Release a block that must be in the chain and belong to `expected`. */
    method FreeOwned(blockSegment: u16, expected: u16) returns (status: MemoryStatus, ghost k: nat)
      requires machine.Valid() && (Ready() == MemoryOk ==> Chained() && Sound())
      modifies machine`mem, machine`faults, this`poisoned, this`trace, this`blocks
      ensures machine.Valid() && |machine.mem| == |old(machine.mem)| && machine.faults >= old(machine.faults)
      ensures old(Ready()) != MemoryOk ==> status == old(Ready())
      ensures old(Ready()) == MemoryOk ==>
        status in {MemoryOk, MemoryInvalidArgument, InvalidBlock, OwnerMismatch, MachineFault, MachinePoisoned}
      ensures old(Ready()) == MemoryOk && status != MachinePoisoned ==> Chained() && Sound() && poisoned == old(poisoned)
      ensures status != MemoryOk && status != MachinePoisoned ==>
        machine.mem == old(machine.mem) && blocks == old(blocks) && poisoned == old(poisoned)
      ensures status == MachinePoisoned ==> poisoned && (old(poisoned) || machine.faults >= old(machine.faults) + 2)
      ensures old(Ready()) == MemoryOk && status in {InvalidBlock, OwnerMismatch} ==> machine.faults == old(machine.faults)
      ensures old(Ready()) == MemoryOk ==> (status == MemoryInvalidArgument <==> expected == 0)
      ensures status == MemoryOk ==>
        && machine.faults == old(machine.faults) && expected != 0
        && k < |old(blocks)| && old(blocks)[k].segment == HeaderOf(blockSegment) && old(blocks)[k].owner == expected
        && blocks == Reown(old(blocks), k, 0)
        && SameOutsideBlock(old(machine.mem), machine.mem, old(blocks)[k])
      ensures old(Ready()) == MemoryOk && machine.faults == old(machine.faults) && expected != 0 ==>
        (status == MemoryOk <==> exists j :: 0 <= j < |old(blocks)| && old(blocks)[j].segment == HeaderOf(blockSegment)
                                             && old(blocks)[j].owner == expected)
    {
      hide IsChain, Put, RecordAt, AllTile, Splice, SameOutsideBlock, SetOwner, Word;
      k := 0;
      status := Ready();
      if status != MemoryOk { return; }
      if expected == 0 { return MemoryInvalidArgument, 0; }
      var header := HeaderOf(blockSegment);
      var record;
      status, record, k := LocateMcb(header, true);
      if status != MemoryOk { return; }
      BlockHeader(machine.mem, head, end, blocks, k);
      WalkOnly(machine.mem, head, end, blocks, k);
      if Owner(record) != expected { return OwnerMismatch, k; }
      ReownChain(machine.mem, head, end, blocks, k, 0, SetOwner(record, 0));
      status := WriteHeader(header, SetOwner(record, 0), Reown(blocks, k, 0));
    }

    /** INT 21h/49h: release whatever paragraph carries a header signature, in
        the chain or not.  The chain keeps tiling either way. */
    method Free(blockSegment: u16) returns (status: MemoryStatus)
      requires machine.Valid() && (Ready() == MemoryOk ==> Chained() && Sound())
      modifies machine`mem, machine`faults, this`poisoned, this`trace, this`blocks
      ensures machine.Valid() && |machine.mem| == |old(machine.mem)| && machine.faults >= old(machine.faults)
      ensures old(Ready()) != MemoryOk ==> status == old(Ready())
      ensures old(Ready()) == MemoryOk ==> status in {MemoryOk, InvalidBlock, MachineFault, MachinePoisoned}
      ensures old(Ready()) == MemoryOk && status != MachinePoisoned ==> Chained() && Sound() && poisoned == old(poisoned)
      ensures status != MemoryOk && status != MachinePoisoned ==>
        machine.mem == old(machine.mem) && blocks == old(blocks)
      ensures status == MachinePoisoned ==> poisoned && (old(poisoned) || machine.faults >= old(machine.faults) + 2)
      ensures status == MemoryOk ==>
        && machine.faults == old(machine.faults) && HasRecord(|machine.mem|, HeaderOf(blockSegment))
        && machine.mem == Put(old(machine.mem), HeaderOf(blockSegment),
                              SetOwner(RecordAt(old(machine.mem), HeaderOf(blockSegment)), 0))
        && blocks == Cleared(old(blocks), HeaderOf(blockSegment))
      ensures old(Ready()) == MemoryOk && machine.faults == old(machine.faults) ==>
        (status == MemoryOk <==> HasRecord(|machine.mem|, HeaderOf(blockSegment))
                                 && SignatureValid(RecordAt(old(machine.mem), HeaderOf(blockSegment))))
    {
      hide IsChain, Put, RecordAt, AllTile, SetOwner, Word, Cleared, Signature;
      status := Ready();
      if status != MemoryOk { return; }
      var header := HeaderOf(blockSegment);
      var record;
      status, record := ReadRecord(header);
      if status != MemoryOk { return; }
      if !SignatureValid(record) { return InvalidBlock; }
      ClearChain(machine.mem, head, end, blocks, header);
      status := WriteHeader(header, SetOwner(record, 0), Cleared(blocks, header));
    }

    /** Compute, without writing, the header that hands a block to a new owner. */
    method PrepareRebind(blockSegment: u16, expected: u16, newOwner: u16, name: seq<byte>, ghost whole: bool)
      returns (status: MemoryStatus, value: Rebind, ghost k: nat)
      requires machine.Valid() && (whole && Ready() == MemoryOk ==> Chained()) && |name| <= 8
      modifies machine`faults
      ensures machine.faults >= old(machine.faults)
      ensures expected == 0 || newOwner == 0 ==> status == MemoryInvalidArgument
      ensures status == MachinePoisoned ==> poisoned
      ensures status == MemoryOk ==>
        && Ready() == MemoryOk && value.header == HeaderOf(blockSegment)
        && value.expected == expected != 0 && value.newOwner == newOwner != 0
        && HasRecord(|machine.mem|, value.header) && |value.record| == RECORD_BYTES
        && value.record == SetName(SetOwner(RecordAt(machine.mem, value.header), newOwner), name)
        && value.WellFormed()
      ensures whole && status == MemoryOk ==>
        && k < |blocks| && blocks[k].segment == value.header && blocks[k].owner == expected
        && HeaderIs(value.record, blocks[k].(owner := newOwner), k == |blocks| - 1)
      ensures whole && Ready() == MemoryOk && expected != 0 && newOwner != 0 && machine.faults == old(machine.faults) ==>
        (status == MemoryOk <==> exists j :: 0 <= j < |blocks| && blocks[j].segment == HeaderOf(blockSegment)
                                             && blocks[j].owner == expected)
    {
      hide IsChain, RecordAt, SetOwner, SetName, Word;
      value, k := Rebind(0, 0, 0, []), 0;
      if expected == 0 || newOwner == 0 { return MemoryInvalidArgument, value, k; }
      status := Ready();
      if status != MemoryOk { return; }
      var header := HeaderOf(blockSegment);
      var record;
      status, record, k := LocateMcb(header, whole);
      if status != MemoryOk { return; }
      if whole {
        BlockHeader(machine.mem, head, end, blocks, k);
        WalkOnly(machine.mem, head, end, blocks, k);
      }
      if Owner(record) != expected { return OwnerMismatch, value, k; }
      value := Rebind(header, expected, newOwner, SetName(SetOwner(record, newOwner), name));
    }

    method TransferOwner(blockSegment: u16, expected: u16, newOwner: u16, name: seq<byte>)
      returns (status: MemoryStatus, ghost k: nat)
      requires machine.Valid() && (Ready() == MemoryOk ==> Chained() && Sound()) && |name| <= 8
      modifies machine`mem, machine`faults, this`poisoned, this`trace, this`blocks
      ensures machine.Valid() && |machine.mem| == |old(machine.mem)| && machine.faults >= old(machine.faults)
      ensures old(Ready()) == MemoryOk && status != MachinePoisoned ==> Chained() && Sound() && poisoned == old(poisoned)
      ensures status != MemoryOk && status != MachinePoisoned ==>
        machine.mem == old(machine.mem) && blocks == old(blocks) && poisoned == old(poisoned)
      ensures status == MachinePoisoned ==> poisoned && (old(poisoned) || machine.faults >= old(machine.faults) + 2)
      ensures status == MemoryOk ==>
        && expected != 0 && newOwner != 0 && k < |old(blocks)|
        && old(blocks)[k].segment == HeaderOf(blockSegment) && old(blocks)[k].owner == expected
        && blocks == Reown(old(blocks), k, newOwner)
        && SameOutsideBlock(old(machine.mem), machine.mem, old(blocks)[k])
      ensures old(Ready()) == MemoryOk && machine.faults == old(machine.faults) && expected != 0 && newOwner != 0 ==>
        (status == MemoryOk <==> exists j :: 0 <= j < |old(blocks)| && old(blocks)[j].segment == HeaderOf(blockSegment)
                                             && old(blocks)[j].owner == expected)
    {
      hide IsChain, Put, RecordAt, AllTile, Splice, SameOutsideBlock, SetOwner, SetName, Word, HeaderIs;
      var value;
      status, value, k := PrepareRebind(blockSegment, expected, newOwner, name, true);
      if status != MemoryOk { return; }
      ReownChain(machine.mem, head, end, blocks, k, newOwner, value.record);
      status := WriteHeader(value.header, value.record, Reown(blocks, k, newOwner));
    }

    /** SETBLOCK on a block of the chain: it swallows the free run behind it,
        keeps what is asked for and becomes the caller's, whoever owned it. */
    method Resize(blockSegment: u16, currentPsp: u16, paragraphs: u16, ghost k: nat)
      returns (status: MemoryStatus, maximum: u16, ghost n: nat)
      requires machine.Valid() && (Ready() == MemoryOk ==>
        Chained() && Sound() && k < |blocks| && blocks[k].segment == HeaderOf(blockSegment))
      modifies machine`mem, machine`faults, this`poisoned, this`trace, this`blocks
      ensures machine.Valid() && |machine.mem| == |old(machine.mem)| && machine.faults >= old(machine.faults)
      ensures old(Ready()) != MemoryOk ==> status == old(Ready())
      ensures old(Ready()) == MemoryOk ==> status in {MemoryOk, NotEnoughMemory, MachineFault, MachinePoisoned}
      ensures old(Ready()) == MemoryOk && status != MachinePoisoned ==> Chained() && Sound() && poisoned == old(poisoned)
      ensures status == MachinePoisoned ==> poisoned && (old(poisoned) || machine.faults >= old(machine.faults) + 2)
      ensures old(Ready()) == MemoryOk && status in {MemoryOk, NotEnoughMemory} ==>
        && WholeRun(old(blocks), k, n) && old(blocks)[k].segment < old(blocks)[k + n].Next()
        && maximum == old(blocks)[k + n].Next() - old(blocks)[k].segment - 1
        && (status == MemoryOk <==> paragraphs <= maximum)
      ensures status == MemoryOk ==>
        && k < |Swallow(old(blocks), k, n)| && paragraphs <= Swallow(old(blocks), k, n)[k].size
        && blocks == TakeLow(Swallow(old(blocks), k, n), k, paragraphs, currentPsp)
      ensures old(Ready()) == MemoryOk && status == NotEnoughMemory ==> blocks == Swallow(old(blocks), k, n)
      ensures old(Ready()) == MemoryOk && machine.faults == old(machine.faults) ==>
        status == MemoryOk || status == NotEnoughMemory
    {
      hide IsChain, RecordAt, AllTile, Splice, SameOutsideBlock, Merge, AgreeOutside, Decoded, Word, TakeLow;
      maximum, n := 0, 0;
      status := Ready();
      if status != MemoryOk { return; }
      var header := HeaderOf(blockSegment);
      BlockHeader(machine.mem, head, end, blocks, k);
      var record;
      status, record := ReadMcb(header);
      if status != MemoryOk { return; }
      ghost var b0 := blocks;
      status, record, n := CoalesceForward(header, record, k);
      if status != MemoryOk { return; }
      SwallowedSize(b0, blocks, k, n);
      BlockHeader(machine.mem, head, end, blocks, k);
      maximum := Size(record);
      if paragraphs > Size(record) { return NotEnoughMemory, maximum, n; }
      var ignored;
      status, ignored := AllocateLow(header, paragraphs, currentPsp, [], k);
    }

    /** Format [newHead, newEnd) as one free block. */
    method Initialize(newHead: u16, newEnd: u16) returns (status: MemoryStatus)
      requires machine.Valid()
      modifies machine`mem, machine`faults, this
      ensures machine.Valid() && |machine.mem| == |old(machine.mem)|
      ensures newEnd <= newHead ==> status == MemoryInvalidArgument
      ensures status == MemoryOk ==>
        && initialized && !poisoned && head == newHead && end == newEnd && generation == old(generation) + 1
        && strategy == FIRST_FIT && blocks == [Block(newHead, newEnd - newHead - 1, 0)]
        && trace == [] && (RECORD_BYTES * newEnd <= |machine.mem| ==> Chained() && Sound())
        && RawHeader(machine.mem, Block(newHead, newEnd - newHead - 1, 0), true)
        && (forall a :: 16 * newHead + 5 <= a < 16 * newHead + 16 ==> machine.mem[a] == 0)
        && (forall a :: 0 <= a < |machine.mem| && !(16 * newHead <= a < 16 * newHead + 16) ==>
              machine.mem[a] == old(machine.mem)[a])
      ensures status != MemoryOk && status != MachinePoisoned ==> machine.mem == old(machine.mem) && unchanged(this)
      ensures newHead < newEnd && old(poisoned) ==> status == MachinePoisoned && unchanged(this) && unchanged(machine)
      ensures newHead < newEnd && !old(poisoned) ==>
        (status == GenerationExhausted <==> old(generation) >= 0xffff_ffff_ffff_ffff)
      ensures newHead < newEnd && !old(poisoned) && old(generation) < 0xffff_ffff_ffff_ffff
              && machine.faults == old(machine.faults) ==>
        status == if HasRecord(|machine.mem|, newHead) then MemoryOk else MachineFault
    {
      hide RecordAt, AllTile, Put, FreshRecord, IsChain, Word, RawHeader;
      if newEnd <= newHead { return MemoryInvalidArgument; }
      if poisoned { return MachinePoisoned; }
      if generation >= GENERATION_MAX { return GenerationExhausted; }
      var record := FreshRecord(newEnd - newHead - 1);
      ghost var m0 := machine.mem;
      status := ReplaceRecord(newHead, record);
      if status != MemoryOk { return; }
      generation, head, strategy, initialized, poisoned := generation + 1, newHead, FIRST_FIT, true, false;
      end, blocks, trace := newEnd, [Block(newHead, newEnd - newHead - 1, 0)], [];
      FreshChain(m0, newHead, newEnd, record);
      FreshBytes(m0, newHead, newEnd - newHead - 1);
      FreshTrace(newHead, newEnd);
    }

    /** The largest free block once every free run is merged. */
    method QueryMaximum() returns (status: MemoryStatus, maximum: u16)
      requires machine.Valid() && (Ready() == MemoryOk ==> Chained() && Sound())
      modifies machine`mem, machine`faults, this`poisoned, this`trace, this`blocks
      ensures machine.Valid() && |machine.mem| == |old(machine.mem)| && machine.faults >= old(machine.faults)
      ensures old(Ready()) != MemoryOk ==> status == old(Ready())
      ensures old(Ready()) == MemoryOk && status != MachinePoisoned ==>
        && Chained() && Sound() && poisoned == old(poisoned) && Merge(blocks) == Merge(old(blocks))
        && SameOutsideFree(old(machine.mem), machine.mem, old(blocks))
      ensures status == MachinePoisoned ==> poisoned && (old(poisoned) || machine.faults >= old(machine.faults) + 2)
      ensures status == MemoryOk ==> IsMaximum(Merge(old(blocks)), maximum)
      ensures old(Ready()) == MemoryOk && machine.faults == old(machine.faults) ==> status == MemoryOk
    {
      hide IsChain, AllTile, Merge, Surveyed, SameOutsideFree, IsMaximum, Chosen;
      maximum := 0;
      status := Ready();
      if status != MemoryOk { return; }
      var survey;
      ghost var first, best, last;
      status, survey, first, best, last := FindCandidates(0xffff);
      if status != MemoryOk { return; }
      SurveyResult(machine.mem, head, end, blocks, 0xffff, survey, first, best, last);
      maximum := survey.maximum;
    }

    /** One step of the release walk: clear the owner of a matching header. */
    method ReleaseHeader(segment: u16, record: seq<byte>, owner: u16, ghost m0: Memory, ghost seen: seq<Block>,
                         ghost whole: bool)
      returns (status: MemoryStatus)
      requires machine.Valid() && |machine.mem| == |m0| && Walked(m0, machine.mem, head, owner, seen, false)
      requires Ahead(head, seen) == segment && HasRecord(|m0|, segment) && record == RecordAt(machine.mem, segment)
      requires SignatureValid(record) && ExtentValid(segment, record)
      requires whole ==> IsChain(m0, head, end, blocks) && Sound()
      modifies machine`mem, machine`faults, this`poisoned, this`trace
      ensures machine.Valid() && |machine.mem| == |m0| && machine.faults >= old(machine.faults)
      ensures status == MemoryOk || status == MachineFault || status == MachinePoisoned
      ensures status == MemoryOk ==>
        && machine.faults == old(machine.faults) && poisoned == old(poisoned)
        && Walked(m0, machine.mem, head, owner, seen + [Block(segment, Size(record), Owner(record))], Signature(record) == LAST)
        && (whole ==> Sound())
      ensures status == MachineFault || Owner(record) != owner ==>
        machine.mem == old(machine.mem) && poisoned == old(poisoned) && trace == old(trace)
      ensures status == MachinePoisoned ==> poisoned && (old(poisoned) || machine.faults >= old(machine.faults) + 2)
      ensures machine.faults == old(machine.faults) ==> status == MemoryOk
    {
      hide IsChain, AllTile, Walked, DisownedTo, RecordAt, Put, SetOwner, Word;
      ghost var b := Block(segment, Size(record), Owner(record));
      WalkSteps(m0, machine.mem, head, owner, seen, b, Signature(record) == LAST);
      if Owner(record) != owner { return MemoryOk; }
      status := ReplaceRecord(segment, SetOwner(record, 0));
      if status == MemoryOk && whole {
        WalkOfChain(m0, machine.mem, head, end, blocks, owner, seen + [b], Signature(record) == LAST);
        AllTileSteps(old(trace), machine.mem, head, end, DisownedTo(blocks, owner, |seen| + 1));
      }
    }

    /** Release every block of `owner`, whatever guest memory holds.  Only a
        complete walk reports success, and a walk that stops after a header was
        cleared poisons the arena. */
    method FreeProcess(owner: u16) returns (status: MemoryStatus, ghost seen: seq<Block>, ghost stop: nat)
      requires machine.Valid()
      modifies machine`mem, machine`faults, this`poisoned, this`trace, this`blocks
      ensures machine.Valid() && |machine.mem| == |old(machine.mem)| && machine.faults >= old(machine.faults)
      ensures old(Ready()) != MemoryOk ==> status == old(Ready())
      ensures status == MemoryOk ==>
        && poisoned == old(poisoned) && machine.faults == old(machine.faults)
        && IsChain(old(machine.mem), head, stop, seen)
        && IsChain(machine.mem, head, stop, Disowned(seen, owner))
        && OnlyOwners(old(machine.mem), machine.mem, seen, owner)
      ensures status != MemoryOk && status != MachinePoisoned ==>
        machine.mem == old(machine.mem) && poisoned == old(poisoned)
      ensures status == MachinePoisoned ==> poisoned
      ensures status == MachinePoisoned && !old(poisoned) ==>
        machine.faults >= old(machine.faults) + 2 || Names(seen, owner)
      ensures old(Ready()) == MemoryOk && old(Chained() && Sound()) && status != MachinePoisoned ==>
        && Chained() && Sound()
        && blocks == if status == MemoryOk then Disowned(old(blocks), owner) else old(blocks)
      ensures old(Ready()) == MemoryOk && old(Chained() && Sound()) && machine.faults == old(machine.faults) ==>
        status == MemoryOk
    {
      hide IsChain, AllTile, Walked, DisownedTo, OnlyOwners, RecordAt, Put, SetOwner, Word, Names;
      seen, stop := [], 0;
      status := Ready();
      if status != MemoryOk { return; }
      ghost var m0, whole := machine.mem, Chained() && Sound();
      WalkStarts(m0, head, owner);
      var segment: u16, changed := head, false;
      for steps := 0 to MAXIMUM_WALK
        invariant machine.Valid() && |machine.mem| == |m0| && poisoned == old(poisoned)
        invariant machine.faults == old(machine.faults) && blocks == old(blocks)
        invariant Walked(m0, machine.mem, head, owner, seen, false) && Ahead(head, seen) == segment && |seen| == steps
        invariant !changed ==> machine.mem == m0 && trace == old(trace)
        invariant changed ==> Names(seen, owner)
        invariant whole ==> Sound()
      {
        var record;
        status, record := ReadMcb(segment);
        if whole { WalkOnChain(m0, machine.mem, head, end, blocks, owner, seen); }
        if status != MemoryOk {
          if changed {
            poisoned := true;
            return MachinePoisoned, seen, stop;
          }
          return;
        }
        status := ReleaseHeader(segment, record, owner, m0, seen, whole);
        if status != MemoryOk {
          if changed && status != MachinePoisoned {
            poisoned := true;
            return MachinePoisoned, seen, stop;
          }
          return;
        }
        NamesMore(seen, Block(segment, Size(record), Owner(record)), owner);
        changed := changed || Owner(record) == owner;
        seen := seen + [Block(segment, Size(record), Owner(record))];
        if Signature(record) == LAST {
          stop := Ahead(head, seen);
          WalkEnds(m0, machine.mem, head, owner, seen);
          if whole { WalkOfChain(m0, machine.mem, head, end, blocks, owner, seen, true); }
          blocks := if whole then Disowned(blocks, owner) else blocks;
          return MemoryOk, seen, stop;
        }
        var next := segment + Size(record) + 1;
        if next >= SEGMENT_LIMIT || next <= segment {
          if changed {
            poisoned := true;
            return MachinePoisoned, seen, stop;
          }
          return ArenaDamaged, seen, stop;
        }
        segment := next;
      }
      WalkGains(m0, machine.mem, head, owner, seen, false);
      return ArenaDamaged, seen, stop;
    }
  }
}

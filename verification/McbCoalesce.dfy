/** One block swallowing the free blocks behind it, header write by header write. */
module McbCoalesce {
  import opened GuestMemory
  import opened McbChain
  import opened McbBlocks

  ghost predicate FreeRun(blocks: seq<Block>, i: nat, n: nat) {
    i + n < |blocks| && forall j :: i < j <= i + n ==> blocks[j].Free()
  }

  /** Block `i` after swallowing the `n` blocks behind it. */
  function Swallow(blocks: seq<Block>, i: nat, n: nat): (after: seq<Block>)
    requires i + n < |blocks| && blocks[i].segment < blocks[i + n].Next()
  {
    Splice(blocks, i, n + 1, [blocks[i].(size := blocks[i + n].Next() - blocks[i].segment - 1)])
  }

  /** The run of free blocks behind block `i` cannot be extended. */
  ghost predicate WholeRun(blocks: seq<Block>, i: nat, n: nat) {
    FreeRun(blocks, i, n) && (i + n + 1 < |blocks| ==> !blocks[i + n + 1].Free())
  }

  ghost predicate Swallowing(m0: Memory, b0: seq<Block>, m: Memory, blocks: seq<Block>, head: nat, end: nat,
                             i: nat, n: nat, record: seq<byte>)
  {
    && IsChain(m0, head, end, b0) && FreeRun(b0, i, n) && b0[i].segment < b0[i + n].Next()
    && blocks == Swallow(b0, i, n) && IsChain(m, head, end, blocks)
    && |m| == |m0| && HasRecord(|m|, b0[i].segment) && record == RecordAt(m, b0[i].segment)
    && AgreeOutside(m0, m, RecordRange(b0[i].segment))
    && (b0[i].Free() ==> Merge(blocks) == Merge(b0))
  }

  lemma {:induction false} SwallowStarts(m0: Memory, b0: seq<Block>, head: nat, end: nat, i: nat)
    requires IsChain(m0, head, end, b0) && i < |b0|
    ensures HasRecord(|m0|, b0[i].segment)
    ensures Swallowing(m0, b0, m0, b0, head, end, i, 0, RecordAt(m0, b0[i].segment))
  {
    hide Merge, RecordAt, HeaderIs, Adjacent;
    assert HeaderAt(m0, b0[i], i == |b0| - 1);
    assert Swallow(b0, i, 0) == b0;
  }

  lemma {:induction false} HeadSegment(m: Memory, head: nat, end: nat, blocks: seq<Block>)
    requires IsChain(m, head, end, blocks)
    ensures |blocks| > 0 && blocks[0].segment == head
  {
  }

  /** What the header of block `k` reads as. */
  lemma {:induction false} BlockHeader(m: Memory, head: nat, end: nat, blocks: seq<Block>, k: nat)
    requires IsChain(m, head, end, blocks) && k < |blocks|
    ensures HasRecord(|m|, blocks[k].segment)
    ensures HeaderIs(RecordAt(m, blocks[k].segment), blocks[k], k == |blocks| - 1)
    ensures blocks[k].Next() <= end <= SEGMENT_LIMIT
  {
    TiledIsOrdered(blocks, head, end);
    assert HeaderAt(m, blocks[k], k == |blocks| - 1);
  }

  /** Where a walk stands at block `k`, and that a chain has at most 64 Ki blocks. */
  lemma {:induction false} WalkView(m: Memory, head: nat, end: nat, blocks: seq<Block>, k: nat)
    requires IsChain(m, head, end, blocks) && k < |blocks|
    ensures |blocks| <= SEGMENT_LIMIT
    ensures HasRecord(|m|, blocks[k].segment)
    ensures HeaderIs(RecordAt(m, blocks[k].segment), blocks[k], k == |blocks| - 1)
    ensures forall j :: k < j < |blocks| ==> blocks[k].segment < blocks[j].segment
    ensures blocks[k].Next() <= SEGMENT_LIMIT
  {
    TiledIndex(blocks, head, end, 0);
    BlockHeader(m, head, end, blocks, k);
    TiledIsOrdered(blocks, head, end);
  }

  /** The position of a swallow in progress. */
  lemma {:induction false} SwallowView(m0: Memory, b0: seq<Block>, m: Memory, blocks: seq<Block>, head: nat, end: nat,
                                       i: nat, n: nat, record: seq<byte>)
    requires Swallowing(m0, b0, m, blocks, head, end, i, n, record)
    ensures |blocks| == |b0| - n && i < |blocks| && blocks[i].segment == b0[i].segment
    ensures forall j :: i < j < |blocks| ==> blocks[j] == b0[j + n]
    ensures |b0| <= SEGMENT_LIMIT
    ensures FreeRun(b0, i, n)
  {
    SwallowIndex(b0, head, end, i, n);
    TiledIndex(b0, head, end, 0);
  }

  lemma {:induction false} SwallowEnds(m0: Memory, b0: seq<Block>, m: Memory, blocks: seq<Block>, head: nat, end: nat,
                                       i: nat, n: nat, record: seq<byte>)
    requires Swallowing(m0, b0, m, blocks, head, end, i, n, record)
    requires i + 1 < |blocks| ==> !blocks[i + 1].Free()
    ensures WholeRun(b0, i, n)
  {
    SwallowIndex(b0, head, end, i, n);
  }

  /** What the walk sees behind a block that is not the last one. */
  lemma {:induction false} Neighbour(m: Memory, blocks: seq<Block>, head: nat, end: nat, i: nat, record: seq<byte>)
    requires IsChain(m, head, end, blocks) && i < |blocks|
    requires HasRecord(|m|, blocks[i].segment) && record == RecordAt(m, blocks[i].segment)
    ensures HeaderIs(record, blocks[i], i == |blocks| - 1)
    ensures blocks[i].Next() <= SEGMENT_LIMIT
    ensures Signature(record) == LAST <==> i == |blocks| - 1
    ensures i < |blocks| - 1 ==>
      && blocks[i + 1].segment == blocks[i].Next() < SEGMENT_LIMIT
      && HeaderAt(m, blocks[i + 1], i + 1 == |blocks| - 1)
      && blocks[i + 1].Next() <= SEGMENT_LIMIT
  {
    hide RecordAt;
    TiledIsOrdered(blocks, head, end);
    assert HeaderAt(m, blocks[i], i == |blocks| - 1);
    if i < |blocks| - 1 {
      assert blocks[i].Next() == blocks[i + 1].segment;
      assert HeaderAt(m, blocks[i + 1], i + 1 == |blocks| - 1);
    }
  }

  /** The header of a block that takes in its right neighbour. */
  function Joined(record: seq<byte>, following: seq<byte>): (r: seq<byte>)
    requires |record| == RECORD_BYTES && |following| == RECORD_BYTES
    requires Size(record) + Size(following) + 1 < SEGMENT_LIMIT
    ensures |r| == RECORD_BYTES
  {
    SetSignature(SetSize(record, Size(record) + Size(following) + 1), Signature(following))
  }

  /** Writing the joined header is one step from chain to chain. */
  lemma {:induction false} JoinChain(m: Memory, blocks: seq<Block>, head: nat, end: nat, i: nat,
                                     record: seq<byte>, following: seq<byte>)
    requires IsChain(m, head, end, blocks) && i < |blocks| - 1
    requires HasRecord(|m|, blocks[i].segment) && record == RecordAt(m, blocks[i].segment)
    requires HasRecord(|m|, blocks[i + 1].segment) && following == RecordAt(m, blocks[i + 1].segment)
    ensures Size(record) + Size(following) + 1 < SEGMENT_LIMIT
    ensures Owner(following) == blocks[i + 1].owner
    ensures IsChain(Put(m, blocks[i].segment, Joined(record, following)), head, end, Absorb(blocks, i))
  {
    hide Put, RecordAt, IsChain, Word, SetSize, SetSignature;
    Neighbour(m, blocks, head, end, i, record);
    var patch := [blocks[i].(size := blocks[i].size + blocks[i + 1].size + 1)];
    assert HeaderIs(Joined(record, following), patch[0], i + 2 == |blocks|);
    ChainRewrite(m, head, end, blocks, i, 2, patch, Joined(record, following));
  }

  lemma {:induction false} SwallowSteps(m0: Memory, b0: seq<Block>, m: Memory, blocks: seq<Block>, head: nat, end: nat,
                                        i: nat, n: nat, record: seq<byte>, following: seq<byte>)
    requires Swallowing(m0, b0, m, blocks, head, end, i, n, record)
    requires i < |blocks| - 1 && HasRecord(|m|, blocks[i + 1].segment)
    requires following == RecordAt(m, blocks[i + 1].segment) && Owner(following) == 0
    ensures Size(record) + Size(following) + 1 < SEGMENT_LIMIT
    ensures FreeRun(b0, i, n + 1) && b0[i].segment < b0[i + n + 1].Next()
    ensures Swallowing(m0, b0, Put(m, b0[i].segment, Joined(record, following)), Swallow(b0, i, n + 1), head, end,
                       i, n + 1, Joined(record, following))
    ensures var m' := Put(m, b0[i].segment, Joined(record, following));
            IsChain(m', head, end, Swallow(b0, i, n + 1)) && RecordAt(m', b0[i].segment) == Joined(record, following)
  {
    hide Merge, Put, RecordAt, AgreeOutside, Adjacent, Swallow, Joined, Decoded, Absorb, Owner, Size, RecordRange;
    SwallowIndex(b0, head, end, i, n);
    JoinChain(m, blocks, head, end, i, record, following);
    SwallowMore(b0, head, end, i, n);
    RecordAfterPut(m, b0[i].segment, Joined(record, following));
    PutOutside(m0, m, b0[i].segment, Joined(record, following));
    if b0[i].Free() { AbsorbKeepsMerge(blocks, i); }
  }

  lemma {:induction false} PutOutside(m0: Memory, m: Memory, segment: nat, r: seq<byte>)
    requires |m| == |m0| && HasRecord(|m|, segment) && |r| == RECORD_BYTES
    requires AgreeOutside(m0, m, RecordRange(segment))
    ensures AgreeOutside(m0, Put(m, segment, r), RecordRange(segment))
  {
    RecordRangeWithin(segment, |m|);
    StoreFrame(m, RecordRange(segment), r);
  }

  lemma {:induction false} SwallowIndex(b0: seq<Block>, head: nat, end: nat, i: nat, n: nat)
    requires Tiled(b0, head, end) && i + n < |b0| && b0[i].segment < b0[i + n].Next()
    ensures var blocks := Swallow(b0, i, n);
            && |blocks| == |b0| - n && blocks[i].segment == b0[i].segment && blocks[i].owner == b0[i].owner
            && forall j :: i < j < |blocks| ==> blocks[j] == b0[j + n]
  {
  }

  lemma {:induction false} SwallowMore(b0: seq<Block>, head: nat, end: nat, i: nat, n: nat)
    requires Tiled(b0, head, end) && i + n + 1 < |b0| && b0[i].segment < b0[i + n].Next()
    ensures b0[i].segment < b0[i + n + 1].Next()
    ensures Absorb(Swallow(b0, i, n), i) == Swallow(b0, i, n + 1)
  {
    var blocks := Swallow(b0, i, n);
    SwallowIndex(b0, head, end, i, n);
    assert b0[i + n].Next() == b0[i + n + 1].segment;
    assert blocks[..i] == b0[..i];
    assert blocks[i + 2..] == b0[i + n + 2..];
  }
}

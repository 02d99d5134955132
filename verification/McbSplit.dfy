/** Splitting one block in two header writes, the hidden header first. */
module McbSplit {
  import opened GuestMemory
  import opened McbChain
  import opened McbBlocks
  import opened McbSurvey

  /** Every byte outside the paragraphs of block `b` is as it was. */
  ghost predicate SameOutsideBlock(m0: Memory, m: Memory, b: Block) {
    && |m| == |m0|
    && forall a :: 0 <= a < |m| && !(b.segment <= a / RECORD_BYTES < b.Next()) ==> m[a] == m0[a]
  }

  lemma {:induction false} PutInsideBlock(m0: Memory, m: Memory, b: Block, segment: nat, r: seq<byte>)
    requires SameOutsideBlock(m0, m, b) && b.segment <= segment < b.Next()
    requires HasRecord(|m|, segment) && |r| == RECORD_BYTES
    ensures SameOutsideBlock(m0, Put(m, segment, r), b)
  {
    hide Put;
    RecordAfterPut(m, segment, r);
  }

  lemma {:induction false} FreeBlockIsOutside(m0: Memory, m: Memory, blocks: seq<Block>, k: nat)
    requires k < |blocks| && blocks[k].Free() && SameOutsideBlock(m0, m, blocks[k])
    ensures SameOutsideFree(m0, m, blocks)
  {
    forall a | 0 <= a < |m| && !InFree(blocks, a / RECORD_BYTES)
      ensures m[a] == m0[a]
    {
      assert !(blocks[k].segment <= a / RECORD_BYTES < blocks[k].Next());
    }
  }

  /** Rewriting the header of block `k` alone. */
  lemma {:induction false} ReownChain(m: Memory, head: nat, end: nat, blocks: seq<Block>, k: nat, owner: nat, r: seq<byte>)
    requires IsChain(m, head, end, blocks) && k < |blocks| && |r| == RECORD_BYTES
    requires HeaderIs(r, blocks[k].(owner := owner), k == |blocks| - 1)
    ensures HasRecord(|m|, blocks[k].segment)
    ensures IsChain(Put(m, blocks[k].segment, r), head, end, Reown(blocks, k, owner))
    ensures SameOutsideBlock(m, Put(m, blocks[k].segment, r), blocks[k])
  {
    hide Put, RecordAt, IsChain, HeaderIs, SameOutsideBlock;
    ChainRewrite(m, head, end, blocks, k, 1, [blocks[k].(owner := owner)], r);
    SameOutsideSelf(m, blocks[k]);
    PutInsideBlock(m, m, blocks[k], blocks[k].segment, r);
  }

  lemma {:induction false} SameOutsideSelf(m: Memory, b: Block)
    ensures SameOutsideBlock(m, m, b)
  {
  }

  /** The hidden header changes nothing, the visible one publishes the split. */
  lemma {:induction false} SplitChain(m: Memory, head: nat, end: nat, blocks: seq<Block>, k: nat, low: Block, high: Block,
                                      lowRecord: seq<byte>, highRecord: seq<byte>)
    requires IsChain(m, head, end, blocks) && k < |blocks| && RECORD_BYTES * end <= |m|
    requires low.segment == blocks[k].segment && low.Next() == high.segment && high.Next() == blocks[k].Next()
    requires |lowRecord| == RECORD_BYTES && HeaderIs(lowRecord, low, false)
    requires |highRecord| == RECORD_BYTES && HeaderIs(highRecord, high, k == |blocks| - 1)
    ensures HasRecord(|m|, low.segment) && HasRecord(|m|, high.segment)
    ensures IsChain(Put(m, high.segment, highRecord), head, end, blocks)
    ensures IsChain(Put(Put(m, high.segment, highRecord), low.segment, lowRecord), head, end,
                    Splice(blocks, k, 1, [low, high]))
    ensures SameOutsideBlock(m, Put(Put(m, high.segment, highRecord), low.segment, lowRecord), blocks[k])
  {
    hide Put, RecordAt, HeaderIs, SameOutsideBlock, Splice;
    TiledIsOrdered(blocks, head, end);
    assert HeaderAt(m, blocks[k], k == |blocks| - 1);
    var m1 := Put(m, high.segment, highRecord);
    RecordAfterPut(m, high.segment, highRecord);
    NoHeaderInside(blocks, head, end, k, high.segment);
    ChainFrame(m, m1, head, end, blocks);
    var patch := [low, high];
    assert HeaderAt(m1, patch[1], k + 1 == |blocks|);
    ChainRewrite(m1, head, end, blocks, k, 1, patch, lowRecord);
    SameOutsideSelf(m, blocks[k]);
    PutInsideBlock(m, m, blocks[k], high.segment, highRecord);
    PutInsideBlock(m, m1, blocks[k], low.segment, lowRecord);
  }

  lemma {:induction false} NoHeaderInside(blocks: seq<Block>, head: nat, end: nat, k: nat, segment: nat)
    requires Tiled(blocks, head, end) && k < |blocks| && blocks[k].segment < segment < blocks[k].Next()
    ensures forall i :: 0 <= i < |blocks| ==> blocks[i].segment != segment
  {
    TiledIsOrdered(blocks, head, end);
    forall i | 0 <= i < |blocks|
      ensures blocks[i].segment != segment
    {
      if i < k { assert blocks[i].Next() <= blocks[k].segment; }
      if k < i { assert blocks[k].Next() <= blocks[i].segment; }
    }
  }
}

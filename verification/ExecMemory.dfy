/** What a launch in preparation has done to guest memory and to the arena. */
module ExecMemory {
  import opened GuestMemory
  import opened McbChain
  import opened McbBlocks
  import opened McbSurvey
  import opened McbSplit
  import opened McbMeaning

  /** Compared with the start (`m0`, `b0`), exactly the blocks of `held` are
      allocated besides, all carved out of memory that was free, and outside of
      memory that was free no byte differs. */
  ghost predicate Kept(m0: Memory, b0: seq<Block>, m: Memory, blocks: seq<Block>, held: set<Block>) {
    && Owned(blocks) == Owned(b0) + held && held !! Owned(b0)
    && (forall p: nat :: InFree(blocks, p) ==> InFree(b0, p))
    && (forall b, p: nat :: b in held && Inside(b, p) ==> InFree(b0, p))
    && SameOutsideFree(m0, m, b0)
  }

  lemma {:induction false} KeptStarts(m: Memory, blocks: seq<Block>)
    ensures Kept(m, blocks, m, blocks, {})
  {
    hide InFree;
  }

  /** Bytes that change only in free memory change only in memory free at the start. */
  lemma {:induction false} SameOutsideWider(m0: Memory, b0: seq<Block>, m: Memory, blocks: seq<Block>, m': Memory)
    requires SameOutsideFree(m0, m, b0) && SameOutsideFree(m, m', blocks)
    requires forall p: nat :: InFree(blocks, p) ==> InFree(b0, p)
    ensures SameOutsideFree(m0, m', b0)
  {
    hide InFree;
    forall a | 0 <= a < |m'| && !InFree(b0, a / RECORD_BYTES)
      ensures m'[a] == m0[a]
    {
      assert !InFree(blocks, a / RECORD_BYTES);
    }
  }

  lemma {:induction false} KeptGain(m0: Memory, b0: seq<Block>, m: Memory, blocks: seq<Block>, held: set<Block>, m': Memory,
                                    blocks': seq<Block>, b: Block)
    requires Kept(m0, b0, m, blocks, held) && Gained(blocks, blocks', b) && SameOutsideFree(m, m', blocks)
    ensures Kept(m0, b0, m', blocks', held + {b}) && b !in held
  {
    hide InFree, SameOutsideFree, Inside;
    SameOutsideWider(m0, b0, m, blocks, m');
  }

  lemma {:induction false} KeptSame(m0: Memory, b0: seq<Block>, m: Memory, blocks: seq<Block>, held: set<Block>, m': Memory,
                                    blocks': seq<Block>)
    requires Kept(m0, b0, m, blocks, held) && SameHoldings(blocks, blocks') && SameOutsideFree(m, m', blocks)
    ensures Kept(m0, b0, m', blocks', held)
  {
    hide InFree, SameOutsideFree, Inside;
    SameOutsideWider(m0, b0, m, blocks, m');
  }

  /** A change inside a held block. */
  lemma {:induction false} KeptInside(m0: Memory, b0: seq<Block>, m: Memory, blocks: seq<Block>, held: set<Block>,
                                      m': Memory, b: Block)
    requires Kept(m0, b0, m, blocks, held) && b in held && SameOutsideBlock(m, m', b)
    ensures Kept(m0, b0, m', blocks, held)
  {
    hide InFree, Owned;
    forall a | 0 <= a < |m'| && !InFree(b0, a / RECORD_BYTES)
      ensures m'[a] == m0[a]
    {
      assert !Inside(b, a / RECORD_BYTES);
    }
  }

  lemma {:induction false} KeptLose(m0: Memory, b0: seq<Block>, m: Memory, blocks: seq<Block>, held: set<Block>, m': Memory,
                                    blocks': seq<Block>, b: Block)
    requires Kept(m0, b0, m, blocks, held) && b in held && Lost(blocks, blocks', b) && SameOutsideBlock(m, m', b)
    ensures Kept(m0, b0, m', blocks', held - {b})
  {
    KeptInside(m0, b0, m, blocks, held, m', b);
    hide InFree, Inside, SameOutsideFree, SameOutsideBlock;
  }

  /** Nothing held any more: the launch left no trace. */
  lemma {:induction false} KeptNothing(m0: Memory, b0: seq<Block>, m: Memory, blocks: seq<Block>)
    requires Kept(m0, b0, m, blocks, {})
    ensures Owned(blocks) == Owned(b0) && SameOutsideFree(m0, m, b0)
  {
  }

  /** A change confined to the paragraphs behind a block's header. */
  ghost predicate SameOutsideData(m0: Memory, m: Memory, b: Block) {
    && |m| == |m0|
    && forall a :: 0 <= a < |m| && !(RECORD_BYTES * (b.segment + 1) <= a < RECORD_BYTES * b.Next()) ==> m[a] == m0[a]
  }

  lemma {:induction false} SameOutsideItself(m: Memory, b: Block)
    ensures SameOutsideData(m, m, b)
  {
  }

  lemma {:induction false} DataInsideBlock(m0: Memory, m: Memory, b: Block)
    requires SameOutsideData(m0, m, b)
    ensures SameOutsideBlock(m0, m, b)
  {
  }

  /** Filling a block keeps the chain. */
  lemma {:induction false} FillKeepsChain(m: Memory, m': Memory, head: nat, end: nat, blocks: seq<Block>, b: Block)
    requires IsChain(m, head, end, blocks) && b in blocks && SameOutsideData(m, m', b)
    ensures IsChain(m', head, end, blocks)
  {
    hide RecordAt, HeaderIs;
    TiledIsOrdered(blocks, head, end);
    var k :| 0 <= k < |blocks| && blocks[k] == b;
    forall i | 0 <= i < |blocks| && HasRecord(|m|, blocks[i].segment)
      ensures RecordAt(m', blocks[i].segment) == RecordAt(m, blocks[i].segment)
    {
      if i < k { assert blocks[i].Next() <= blocks[k].segment; }
      if k < i { assert blocks[k].Next() <= blocks[i].segment; }
      SameRecord(m, m', b, blocks[i].segment);
    }
    ChainFrame(m, m', head, end, blocks);
  }

  lemma {:induction false} SameRecord(m: Memory, m': Memory, b: Block, segment: nat)
    requires SameOutsideData(m, m', b) && HasRecord(|m|, segment) && (segment <= b.segment || b.Next() <= segment)
    ensures RecordAt(m', segment) == RecordAt(m, segment)
  {
    forall a | RECORD_BYTES * segment <= a < RECORD_BYTES * segment + RECORD_BYTES
      ensures m'[a] == m[a]
    {
    }
  }
}

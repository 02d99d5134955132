/** What the arena's operations do to the set of allocated blocks. */
module McbMeaning {
  import opened McbChain
  import opened McbBlocks
  import opened MemoryArena
  import opened GuestMemory
  import opened McbSurvey

  /** The block a caller holds by its segment, its size and its owner. */
  function BlockHeld(blockSegment: u16, size: nat, owner: nat): (b: Block) {
    Block(HeaderOf(blockSegment), size, owner)
  }

  ghost predicate Inside(b: Block, p: nat) {
    b.segment <= p < b.Next()
  }

  /** Two different allocated blocks share no paragraph, and the header alone
      tells allocated blocks apart. */
  lemma {:induction false} OwnedApart(blocks: seq<Block>, head: nat, end: nat, a: Block, b: Block)
    requires Tiled(blocks, head, end) && a in blocks && b in blocks && a != b
    ensures a.segment != b.segment && forall p: nat :: !(Inside(a, p) && Inside(b, p))
  {
    TiledIsOrdered(blocks, head, end);
    var i :| 0 <= i < |blocks| && blocks[i] == a;
    var j :| 0 <= j < |blocks| && blocks[j] == b;
    assert i < j ==> a.Next() <= b.segment;
    assert j < i ==> b.Next() <= a.segment;
  }

  lemma {:induction false} OwnedNotFree(blocks: seq<Block>, head: nat, end: nat, b: Block, p: nat)
    requires Tiled(blocks, head, end) && b in Owned(blocks) && Inside(b, p)
    ensures !InFree(blocks, p)
  {
    if InFree(blocks, p) {
      var i :| 0 <= i < |blocks| && blocks[i].Free() && blocks[i].segment <= p < blocks[i].Next();
      OwnedApart(blocks, head, end, b, blocks[i]);
      assert Inside(blocks[i], p);
    }
  }

  /** Block `b` was carved out of what was free, and nothing else changed hands. */
  ghost predicate Gained(before: seq<Block>, after: seq<Block>, b: Block) {
    && b !in Owned(before) && Owned(after) == Owned(before) + {b}
    && (forall p: nat :: InFree(after, p) ==> InFree(before, p))
    && (forall p: nat :: Inside(b, p) ==> InFree(before, p))
  }

  /** The same blocks are allocated and the same paragraphs are free. */
  ghost predicate SameHoldings(before: seq<Block>, after: seq<Block>) {
    Owned(after) == Owned(before) && forall p: nat :: InFree(after, p) <==> InFree(before, p)
  }

  /** Block `b` became free, and nothing else changed hands. */
  ghost predicate Lost(before: seq<Block>, after: seq<Block>, b: Block) {
    && b in Owned(before) && Owned(after) == Owned(before) - {b}
    && forall p: nat :: InFree(after, p) <==> InFree(before, p) || Inside(b, p)
  }

  /** Block `b` went to `owner`, and nothing else changed hands. */
  ghost predicate Handed(before: seq<Block>, after: seq<Block>, b: Block, owner: nat) {
    && b in Owned(before) && Owned(after) == Owned(before) - {b} + {b.(owner := owner)}
    && forall p: nat :: InFree(after, p) <==> InFree(before, p)
  }

  /** A grant adds exactly the granted block, out of what was free. */
  lemma {:induction false} GrantMeaning(before: seq<Block>, after: seq<Block>, head: nat, end: nat, strategy: nat,
                                        owner: nat, size: nat, k: nat, blockSegment: u16)
    requires Tiled(before, head, end) && owner != 0
    requires Granted(before, after, strategy, owner, size, k, blockSegment)
    ensures Gained(before, after, BlockHeld(blockSegment, size, owner))
  {
    hide Merge, Owned, InFree, Settled;
    var merged := Merge(before);
    MergeMeaning(before, head, end);
    TiledIsOrdered(merged, head, end);
    ChosenCandidate(strategy, merged, size, k);
    var b := merged[k];
    var patch := if strategy <= BEST_FIT then LowPatch(b, size, owner) else HighPatch(b, size, owner);
    var granted := BlockHeld(blockSegment, size, owner);
    GrantedInPatch(b, size, owner, strategy <= BEST_FIT, blockSegment);
    TakeMeaning(merged, k, patch, granted);
    forall p: nat | Inside(granted, p)
      ensures InFree(before, p)
    {
      InFreeAt(merged, k, p);
    }
    assert Inside(granted, granted.segment);
    if granted in Owned(before) {
      OwnedNotFree(merged, head, end, granted, granted.segment);
    }
  }

  lemma {:induction false} InFreeAt(blocks: seq<Block>, k: nat, p: nat)
    requires k < |blocks| && blocks[k].Free() && Inside(blocks[k], p)
    ensures InFree(blocks, p)
  {
  }

  lemma {:induction false} GrantedInPatch(b: Block, size: nat, owner: nat, low: bool, blockSegment: u16)
    requires size <= b.size && b.Next() <= SEGMENT_LIMIT && owner != 0
    requires blockSegment == BlockOf(if low then b.segment else b.segment + (b.size - size))
    ensures var patch := if low then LowPatch(b, size, owner) else HighPatch(b, size, owner);
      var granted := BlockHeld(blockSegment, size, owner);
      && granted in patch && (forall x :: x in patch ==> x == granted || x.Free())
      && (forall x :: x in patch ==> b.segment <= x.segment && x.Next() <= b.Next())
  {
    var patch := if low then LowPatch(b, size, owner) else HighPatch(b, size, owner);
    var granted := BlockHeld(blockSegment, size, owner);
    if size == b.size || low {
      assert patch[0] == granted;
    } else {
      assert patch[1] == granted;
    }
  }

  lemma {:induction false} ReownOwned(blocks: seq<Block>, head: nat, end: nat, k: nat, owner: nat)
    requires Tiled(blocks, head, end) && k < |blocks| && !blocks[k].Free() && owner != 0
    ensures Owned(Reown(blocks, k, owner)) == Owned(blocks) - {blocks[k]} + {blocks[k].(owner := owner)}
  {
    var before, after := blocks[k..k + 1], [blocks[k].(owner := owner)];
    SpliceSelf(blocks, k, 1);
    OwnedSplice(blocks, k, 1, before);
    OwnedSplice(blocks, k, 1, after);
    TiledIsOrdered(blocks, head, end);
    assert before == [blocks[k]];
    assert blocks[k] !in blocks[..k] && blocks[k] !in blocks[k + 1..];
  }

  lemma {:induction false} ReownFree(blocks: seq<Block>, k: nat, owner: nat, p: nat)
    requires k < |blocks| && !blocks[k].Free() && owner != 0
    ensures InFree(Reown(blocks, k, owner), p) <==> InFree(blocks, p)
  {
    hide InFree;
    var before, after := blocks[k..k + 1], [blocks[k].(owner := owner)];
    SpliceSelf(blocks, k, 1);
    assert before == [blocks[k]];
    InFreeSplice(blocks, k, 1, before, p);
    InFreeSplice(blocks, k, 1, after, p);
    InFreeOne(blocks[k], p);
    InFreeOne(after[0], p);
  }

  /** Handing a block over replaces exactly that block. */
  lemma {:induction false} TransferMeaning(blocks: seq<Block>, head: nat, end: nat, k: nat, owner: nat)
    requires Tiled(blocks, head, end) && k < |blocks| && !blocks[k].Free() && owner != 0
    ensures Handed(blocks, Reown(blocks, k, owner), blocks[k], owner)
  {
    hide InFree, Reown;
    ReownOwned(blocks, head, end, k, owner);
    forall p: nat ensures InFree(Reown(blocks, k, owner), p) <==> InFree(blocks, p)
    {
      ReownFree(blocks, k, owner, p);
    }
  }

  lemma {:induction false} ChainTiled(m: Memory, head: nat, end: nat, blocks: seq<Block>)
    requires IsChain(m, head, end, blocks)
    ensures Tiled(blocks, head, end)
  {
  }

  /** Merging free runs, in part or in full, changes no allocated block and no
      free paragraph. */
  lemma {:induction false} MergedMeaning(before: seq<Block>, after: seq<Block>, head: nat, end: nat)
    requires Tiled(before, head, end) && Tiled(after, head, end)
    requires Merge(after) == Merge(before) || after == Merge(before)
    ensures SameHoldings(before, after)
  {
    hide Owned, InFree, Merge, Tiled, Settled;
    if after == Merge(before) {
      MergeMeaning(before, head, end);
    } else {
      SameMerge(before, after, head, end);
    }
  }

  lemma {:induction false} SameSelf(m: Memory, blocks: seq<Block>)
    ensures SameOutsideFree(m, m, blocks)
  {
  }

  lemma {:induction false} HoldingsSelf(blocks: seq<Block>)
    ensures SameHoldings(blocks, blocks)
  {
  }

  lemma {:induction false} HoldingsKept(before: seq<Block>, after: seq<Block>)
    requires SameHoldings(before, after)
    ensures Owned(after) == Owned(before)
  {
  }

  lemma {:induction false} GainedOwned(before: seq<Block>, after: seq<Block>, b: Block)
    requires Gained(before, after, b)
    ensures b !in Owned(before) && Owned(after) == Owned(before) + {b}
  {
  }

  lemma {:induction false} FreeMeaning(blocks: seq<Block>, head: nat, end: nat, k: nat)
    requires Tiled(blocks, head, end) && k < |blocks| && !blocks[k].Free()
    ensures Lost(blocks, Reown(blocks, k, 0), blocks[k])
  {
    hide InFree, Reown;
    ReleaseMeaning(blocks, head, end, k);
  }

  lemma {:induction false} LostOwned(before: seq<Block>, after: seq<Block>, b: Block)
    requires Lost(before, after, b)
    ensures Owned(after) == Owned(before) - {b}
  {
  }

  lemma {:induction false} HandedOwned(before: seq<Block>, after: seq<Block>, b: Block, owner: nat)
    requires Handed(before, after, b, owner)
    ensures Owned(after) == Owned(before) - {b} + {b.(owner := owner)}
  {
  }

  /** The block at a header is the one the chain has there. */
  lemma {:induction false} OwnedAt(blocks: seq<Block>, head: nat, end: nat, b: Block, k: nat)
    requires Tiled(blocks, head, end) && b in Owned(blocks) && k < |blocks| && blocks[k].segment == b.segment
    ensures blocks[k] == b
  {
    if blocks[k] != b { OwnedApart(blocks, head, end, b, blocks[k]); }
  }
}

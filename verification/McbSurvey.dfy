/** One walk over the chain that merges every free run and surveys the result. */
module McbSurvey {
  import opened GuestMemory
  import opened McbChain
  import opened McbBlocks
  import opened McbCoalesce

  /** Every byte outside the paragraphs that were free is as it was. */
  ghost predicate SameOutsideFree(m0: Memory, m: Memory, b0: seq<Block>) {
    && |m| == |m0|
    && forall a :: 0 <= a < |m| && !InFree(b0, a / RECORD_BYTES) ==> m[a] == m0[a]
  }

  lemma {:induction false} FreeWriteIsOutside(m0: Memory, m: Memory, m': Memory, b0: seq<Block>, segment: nat)
    requires SameOutsideFree(m0, m, b0) && AgreeOutside(m, m', RecordRange(segment)) && InFree(b0, segment)
    ensures SameOutsideFree(m0, m', b0)
  {
    hide InFree;
    forall a | 0 <= a < |m'| && !InFree(b0, a / RECORD_BYTES)
      ensures m'[a] == m0[a]
    {
      InLinearRange(RECORD_BYTES * segment, RECORD_BYTES, a);
    }
  }

  lemma {:induction false} SameOutsideFreeTrans(m0: Memory, m1: Memory, m2: Memory, b0: seq<Block>, b1: seq<Block>)
    requires SameOutsideFree(m0, m1, b0) && SameOutsideFree(m1, m2, b1)
    requires forall p: nat :: InFree(b1, p) ==> InFree(b0, p)
    ensures SameOutsideFree(m0, m2, b0)
  {
    hide InFree;
  }

  ghost predicate Surveying(m0: Memory, b0: seq<Block>, m: Memory, blocks: seq<Block>, head: nat, end: nat,
                            k: nat, size: nat, s: Survey, first: nat, best: nat, last: nat)
  {
    && IsChain(m0, head, end, b0) && IsChain(m, head, end, blocks)
    && Merge(blocks) == Merge(b0) && SameOutsideFree(m0, m, b0)
    && k < |blocks| && Settled(blocks, k)
    && Surveyed(blocks[..k], size, s, first, best, last)
  }

  lemma {:induction false} SurveyStarts(m0: Memory, b0: seq<Block>, head: nat, end: nat, size: nat)
    requires IsChain(m0, head, end, b0)
    ensures Surveying(m0, b0, m0, b0, head, end, 0, size, NOTHING_SEEN, 0, 0, 0)
  {
  }

  /** Where the walk stands, and that a chain has at most 64 Ki blocks. */
  lemma {:induction false} SurveyView(m0: Memory, b0: seq<Block>, m: Memory, blocks: seq<Block>, head: nat, end: nat,
                                      k: nat, size: nat, s: Survey, first: nat, best: nat, last: nat)
    requires Surveying(m0, b0, m, blocks, head, end, k, size, s, first, best, last)
    ensures IsChain(m, head, end, blocks) && k < |blocks| <= SEGMENT_LIMIT
    ensures HeaderAt(m, blocks[k], k == |blocks| - 1)
    ensures |m| == |m0| && Merge(blocks) == Merge(b0) && SameOutsideFree(m0, m, b0)
  {
    hide Merge, HeaderAt, Settled, Surveyed;
    TiledIndex(blocks, head, end, 0);
  }

  lemma {:induction false} SurveyCoalesced(m0: Memory, b0: seq<Block>, m: Memory, blocks: seq<Block>, head: nat, end: nat,
                                           k: nat, size: nat, s: Survey, first: nat, best: nat, last: nat,
                                           m': Memory, blocks': seq<Block>, n: nat, record: seq<byte>)
    requires Surveying(m0, b0, m, blocks, head, end, k, size, s, first, best, last) && blocks[k].Free()
    requires Swallowing(m, blocks, m', blocks', head, end, k, n, record)
    ensures Surveying(m0, b0, m', blocks', head, end, k, size, s, first, best, last)
    ensures blocks'[k].Free() && blocks'[k].segment == blocks[k].segment
    ensures WholeRun(blocks, k, n) ==> Settled(blocks', k + 1)
  {
    hide Merge, Surveyed, SameOutsideFree, AgreeOutside, Decoded, InFree, RecordAt;
    SwallowIndex(blocks, head, end, k, n);
    assert blocks'[..k] == blocks[..k];
    assert forall j :: 0 <= j < k ==> blocks'[j] == blocks[j];
    FreeHere(blocks, k);
    SameMerge(b0, blocks, head, end);
    FreeWriteIsOutside(m0, m, m', b0, blocks[k].segment);
  }

  lemma {:induction false} FreeHere(blocks: seq<Block>, k: nat)
    requires k < |blocks| && blocks[k].Free()
    ensures InFree(blocks, blocks[k].segment)
  {
  }

  lemma {:induction false} SurveyAdvances(m0: Memory, b0: seq<Block>, m: Memory, blocks: seq<Block>, head: nat, end: nat,
                                          k: nat, size: nat, s: Survey, first: nat, best: nat, last: nat)
      returns (first': nat, best': nat, last': nat)
    requires Surveying(m0, b0, m, blocks, head, end, k, size, s, first, best, last)
    requires blocks[k].Free() ==> Settled(blocks, k + 1)
    ensures Settled(blocks, k + 1)
    ensures Surveyed(blocks[..k + 1], size, Observe(s, blocks[k], size), first', best', last')
    ensures k + 1 < |blocks| ==>
      Surveying(m0, b0, m, blocks, head, end, k + 1, size, Observe(s, blocks[k], size), first', best', last')
    ensures k + 1 == |blocks| ==>
      blocks == Merge(b0) && Surveyed(blocks, size, Observe(s, blocks[k], size), first', best', last')
  {
    hide Merge, Surveyed, SameOutsideFree, IsChain, Observe;
    var b := blocks[k];
    assert blocks[..k + 1] == blocks[..k] + [b];
    SurveySteps(blocks[..k], size, s, first, best, last, b);
    var fits := b.Free() && b.size >= size;
    first' := if fits && !s.found then k else first;
    best' := if fits && (!s.found || b.size < s.bestSize) then k else best;
    last' := if fits then k else last;
    if k + 1 == |blocks| {
      assert blocks[..k + 1] == blocks;
      SettledIsMerged(blocks);
    }
  }
}

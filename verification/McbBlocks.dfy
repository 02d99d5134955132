/** What the allocator means, on sequences of blocks. */
module McbBlocks {
  import opened McbChain

  // ---------- coalescing ----------

  /** Block `i` swallows its right neighbour. */
  function Absorb(blocks: seq<Block>, i: nat): (after: seq<Block>)
    requires i + 1 < |blocks|
  {
    Splice(blocks, i, 2, [blocks[i].(size := blocks[i].size + blocks[i + 1].size + 1)])
  }

  /** All maximal runs of adjacent free blocks, each as one block. */
  function Merge(blocks: seq<Block>): (merged: seq<Block>)
    ensures |blocks| > 0 ==> |merged| > 0 && merged[0].segment == blocks[0].segment
                             && merged[0].owner == blocks[0].owner
    ensures |blocks| == 0 ==> merged == []
  {
    if |blocks| <= 1 then blocks else
      var rest := Merge(blocks[1..]);
      if blocks[0].Free() && rest[0].Free()
      then [blocks[0].(size := blocks[0].size + rest[0].size + 1)] + rest[1..]
      else [blocks[0]] + rest
  }

  ghost predicate Settled(blocks: seq<Block>, upto: nat) {
    forall i :: 0 <= i < upto && i + 1 < |blocks| ==> !(blocks[i].Free() && blocks[i + 1].Free())
  }

  /** The allocated blocks. */
  ghost function Owned(blocks: seq<Block>): set<Block> {
    set b | b in blocks && !b.Free()
  }

  /** Paragraph `p` belongs to a free block, header included. */
  ghost predicate InFree(blocks: seq<Block>, p: nat) {
    exists i :: 0 <= i < |blocks| && blocks[i].Free() && blocks[i].segment <= p < blocks[i].Next()
  }

  lemma {:induction false} AbsorbKeepsMerge(blocks: seq<Block>, i: nat)
    requires i + 1 < |blocks| && blocks[i].Free() && blocks[i + 1].Free()
    ensures Merge(Absorb(blocks, i)) == Merge(blocks)
    decreases i
  {
    var after := Absorb(blocks, i);
    if i == 0 {
      assert after[1..] == blocks[2..] == blocks[1..][1..];
    } else {
      AbsorbKeepsMerge(blocks[1..], i - 1);
      assert after[1..] == Absorb(blocks[1..], i - 1);
    }
  }

  lemma {:induction false} SettledIsMerged(blocks: seq<Block>)
    requires Settled(blocks, |blocks|)
    ensures Merge(blocks) == blocks
    decreases |blocks|
  {
    if |blocks| > 1 {
      var rest := blocks[1..];
      assert forall i :: 0 <= i < |rest| ==> rest[i] == blocks[i + 1];
      SettledIsMerged(rest);
    }
  }

  /** `Merge` is characterised: no two free neighbours are left, the allocated
      blocks and the free paragraphs are the same, and the tiling is kept. */
  lemma {:induction false} MergeMeaning(blocks: seq<Block>, head: nat, end: nat)
    requires Tiled(blocks, head, end)
    ensures Tiled(Merge(blocks), head, end)
    ensures Settled(Merge(blocks), |Merge(blocks)|)
    ensures Owned(Merge(blocks)) == Owned(blocks)
    ensures forall p: nat :: InFree(Merge(blocks), p) <==> InFree(blocks, p)
    decreases |blocks|
  {
    hide Owned, InFree, Adjacent;
    if |blocks| > 1 {
      var first, tail := blocks[0], blocks[1..];
      assert blocks == [first] + tail;
      TailTiled(blocks, head, end);
      MergeMeaning(tail, tail[0].segment, end);
      var rest := Merge(tail);
      if first.Free() && rest[0].Free() {
        MergeHead(first, rest, end);
        FreeCons(first, tail, rest);
      } else {
        ConsTiled(first, rest, end);
        ConsMeaning(first, tail, rest);
      }
    }
  }

  lemma {:induction false} TailTiled(blocks: seq<Block>, head: nat, end: nat)
    requires Tiled(blocks, head, end) && |blocks| > 1
    ensures Tiled(blocks[1..], blocks[1].segment, end) && blocks[0].Next() == blocks[1].segment
  {
    var tail := blocks[1..];
    assert forall i :: 0 <= i < |tail| ==> tail[i] == blocks[i + 1];
  }

  lemma {:induction false} ConsTiled(first: Block, rest: seq<Block>, end: nat)
    requires |rest| > 0 && Tiled(rest, rest[0].segment, end) && first.Next() == rest[0].segment
    requires Settled(rest, |rest|) && !(first.Free() && rest[0].Free())
    ensures Tiled([first] + rest, first.segment, end) && Settled([first] + rest, |rest| + 1)
  {
    var all := [first] + rest;
    assert forall i :: 1 <= i < |all| ==> all[i] == rest[i - 1];
  }

  lemma {:induction false} MergeHead(first: Block, rest: seq<Block>, end: nat)
    requires |rest| > 0 && Tiled(rest, rest[0].segment, end) && first.Next() == rest[0].segment
    requires Settled(rest, |rest|) && first.Free() && rest[0].Free()
    ensures var all := [first.(size := first.size + rest[0].size + 1)] + rest[1..];
            Tiled(all, first.segment, end) && Settled(all, |all|)
  {
    var all := [first.(size := first.size + rest[0].size + 1)] + rest[1..];
    assert forall i :: 1 <= i < |all| ==> all[i] == rest[i];
    assert all[|all| - 1].Next() == end;
  }

  lemma {:induction false} ConsMeaning(first: Block, tail: seq<Block>, rest: seq<Block>)
    requires Owned(rest) == Owned(tail) && forall p: nat :: InFree(rest, p) <==> InFree(tail, p)
    ensures Owned([first] + rest) == Owned([first] + tail)
    ensures forall p: nat :: InFree([first] + rest, p) <==> InFree([first] + tail, p)
  {
    forall p: nat ensures InFree([first] + rest, p) <==> InFree([first] + tail, p) {
      InFreeCons(first, rest, p);
      InFreeCons(first, tail, p);
    }
    OwnedCons(first, rest);
    OwnedCons(first, tail);
  }

  lemma {:induction false} FreeCons(first: Block, tail: seq<Block>, rest: seq<Block>)
    requires |rest| > 0 && first.Free() && rest[0].Free() && first.Next() == rest[0].segment
    requires Owned(rest) == Owned(tail) && forall p: nat :: InFree(rest, p) <==> InFree(tail, p)
    ensures var all := [first.(size := first.size + rest[0].size + 1)] + rest[1..];
            Owned(all) == Owned([first] + tail) && forall p: nat :: InFree(all, p) <==> InFree([first] + tail, p)
  {
    var big := first.(size := first.size + rest[0].size + 1);
    assert rest == [rest[0]] + rest[1..];
    OwnedCons(big, rest[1..]);
    OwnedCons(rest[0], rest[1..]);
    OwnedCons(first, tail);
    forall p: nat ensures InFree([big] + rest[1..], p) <==> InFree([first] + tail, p) {
      InFreeCons(big, rest[1..], p);
      InFreeCons(rest[0], rest[1..], p);
      InFreeCons(first, tail, p);
    }
  }

  lemma {:induction false} OwnedAppend(a: seq<Block>, b: seq<Block>)
    ensures Owned(a + b) == Owned(a) + Owned(b)
  {
  }

  lemma {:induction false} OwnedCons(first: Block, tail: seq<Block>)
    ensures Owned([first] + tail) == (if first.Free() then {} else {first}) + Owned(tail)
  {
    OwnedAppend([first], tail);
  }

  lemma {:induction false} InFreeAppend(a: seq<Block>, b: seq<Block>, p: nat)
    ensures InFree(a + b, p) <==> InFree(a, p) || InFree(b, p)
  {
    var all := a + b;
    if InFree(a, p) {
      var i :| 0 <= i < |a| && a[i].Free() && a[i].segment <= p < a[i].Next();
      assert all[i] == a[i];
    }
    if InFree(b, p) {
      var i :| 0 <= i < |b| && b[i].Free() && b[i].segment <= p < b[i].Next();
      assert all[|a| + i] == b[i];
    }
  }

  lemma {:induction false} InFreeOne(b: Block, p: nat)
    ensures InFree([b], p) <==> b.Free() && b.segment <= p < b.Next()
  {
    assert [b][0] == b;
  }

  lemma {:induction false} InFreeCons(first: Block, tail: seq<Block>, p: nat)
    ensures InFree([first] + tail, p) <==> (first.Free() && first.segment <= p < first.Next()) || InFree(tail, p)
  {
    InFreeAppend([first], tail, p);
    InFreeOne(first, p);
  }

  // ---------- splices ----------

  lemma {:induction false} SpliceSelf(blocks: seq<Block>, i: nat, cut: nat)
    requires i + cut <= |blocks|
    ensures Splice(blocks, i, cut, blocks[i..i + cut]) == blocks
  {
  }

  lemma {:induction false} OwnedSplice(blocks: seq<Block>, i: nat, cut: nat, patch: seq<Block>)
    requires i + cut <= |blocks|
    ensures Owned(Splice(blocks, i, cut, patch)) == Owned(blocks[..i]) + Owned(patch) + Owned(blocks[i + cut..])
  {
    OwnedAppend(blocks[..i], patch);
    OwnedAppend(blocks[..i] + patch, blocks[i + cut..]);
  }

  lemma {:induction false} InFreeSplice(blocks: seq<Block>, i: nat, cut: nat, patch: seq<Block>, p: nat)
    requires i + cut <= |blocks|
    ensures InFree(Splice(blocks, i, cut, patch), p)
       <==> InFree(blocks[..i], p) || InFree(patch, p) || InFree(blocks[i + cut..], p)
  {
    InFreeAppend(blocks[..i], patch, p);
    InFreeAppend(blocks[..i] + patch, blocks[i + cut..], p);
  }

  /** Two arrangements with the same merge hold the same allocated blocks and
      the same free paragraphs. */
  lemma {:induction false} SameMerge(a: seq<Block>, b: seq<Block>, head: nat, end: nat)
    requires Tiled(a, head, end) && Tiled(b, head, end) && Merge(a) == Merge(b)
    ensures Owned(a) == Owned(b) && forall p: nat :: InFree(a, p) <==> InFree(b, p)
  {
    MergeMeaning(a, head, end);
    MergeMeaning(b, head, end);
  }

  // ---------- allocation ----------

  /** Give the low end of free block `k` to `owner`. */
  function TakeLow(blocks: seq<Block>, k: nat, size: nat, owner: nat): (after: seq<Block>)
    requires k < |blocks| && size <= blocks[k].size
  {
    Splice(blocks, k, 1, LowPatch(blocks[k], size, owner))
  }

  function LowPatch(b: Block, size: nat, owner: nat): (patch: seq<Block>)
    requires size <= b.size
  {
    if size == b.size then [b.(owner := owner)]
    else [Block(b.segment, size, owner), Block(b.segment + size + 1, b.size - size - 1, 0)]
  }

  /** Give the high end of free block `k` to `owner`. */
  function TakeHigh(blocks: seq<Block>, k: nat, size: nat, owner: nat): (after: seq<Block>)
    requires k < |blocks| && size <= blocks[k].size
  {
    Splice(blocks, k, 1, HighPatch(blocks[k], size, owner))
  }

  function HighPatch(b: Block, size: nat, owner: nat): (patch: seq<Block>)
    requires size <= b.size
  {
    if size == b.size then [b.(owner := owner)]
    else var gap := b.size - size;
         [Block(b.segment, gap - 1, 0), Block(b.segment + gap, size, owner)]
  }

  function Reown(blocks: seq<Block>, k: nat, owner: nat): (after: seq<Block>)
    requires k < |blocks|
  {
    Splice(blocks, k, 1, [blocks[k].(owner := owner)])
  }

  /** Handing out part of a free block adds exactly that block to the allocated
      ones, inside what was free. */
  lemma {:induction false} TakeMeaning(blocks: seq<Block>, k: nat, patch: seq<Block>, granted: Block)
    requires k < |blocks| && blocks[k].Free() && !granted.Free()
    requires granted in patch && forall b :: b in patch ==> b == granted || b.Free()
    requires forall b :: b in patch ==> blocks[k].segment <= b.segment && b.Next() <= blocks[k].Next()
    ensures Owned(Splice(blocks, k, 1, patch)) == Owned(blocks) + {granted}
    ensures forall p: nat :: InFree(Splice(blocks, k, 1, patch), p) ==> InFree(blocks, p)
  {
    hide InFree;
    SpliceSelf(blocks, k, 1);
    OwnedSplice(blocks, k, 1, blocks[k..k + 1]);
    OwnedSplice(blocks, k, 1, patch);
    assert Owned(patch) == {granted} && Owned(blocks[k..k + 1]) == {};
    forall p: nat | InFree(Splice(blocks, k, 1, patch), p)
      ensures InFree(blocks, p)
    {
      InFreeSplice(blocks, k, 1, blocks[k..k + 1], p);
      InFreeSplice(blocks, k, 1, patch, p);
      PatchInside(blocks[k], patch, p);
      assert blocks[k..k + 1] == [blocks[k]];
    }
  }

  lemma {:induction false} PatchInside(b: Block, patch: seq<Block>, p: nat)
    requires b.Free() && forall x :: x in patch ==> b.segment <= x.segment && x.Next() <= b.Next()
    ensures InFree(patch, p) ==> InFree([b], p)
  {
    InFreeOne(b, p);
  }

  /** Freeing an allocated block removes exactly that block, and only its own
      paragraphs become free. */
  lemma {:induction false} ReleaseMeaning(blocks: seq<Block>, head: nat, end: nat, k: nat)
    requires Tiled(blocks, head, end) && k < |blocks| && !blocks[k].Free()
    ensures Owned(Reown(blocks, k, 0)) == Owned(blocks) - {blocks[k]}
    ensures forall p: nat :: InFree(Reown(blocks, k, 0), p) <==>
              InFree(blocks, p) || blocks[k].segment <= p < blocks[k].Next()
  {
    hide InFree;
    var before, after := blocks[k..k + 1], [blocks[k].(owner := 0)];
    SpliceSelf(blocks, k, 1);
    OwnedSplice(blocks, k, 1, before);
    OwnedSplice(blocks, k, 1, after);
    TiledIsOrdered(blocks, head, end);
    assert before == [blocks[k]];
    assert blocks[k] !in blocks[..k] && blocks[k] !in blocks[k + 1..];
    forall p: nat ensures InFree(Reown(blocks, k, 0), p) <==>
                     InFree(blocks, p) || blocks[k].segment <= p < blocks[k].Next()
    {
      InFreeSplice(blocks, k, 1, before, p);
      InFreeSplice(blocks, k, 1, after, p);
      InFreeOne(blocks[k], p);
      InFreeOne(after[0], p);
    }
  }

  // ---------- the choice of a block ----------

  const FIRST_FIT := 0
  const BEST_FIT := 1

  ghost predicate Candidate(blocks: seq<Block>, k: nat, size: nat) {
    k < |blocks| && blocks[k].Free() && blocks[k].size >= size
  }

  /** First fit takes the lowest candidate, best fit the smallest and among
      equals the lowest, every other strategy the highest. */
  ghost predicate Chosen(strategy: nat, blocks: seq<Block>, size: nat, k: nat) {
    && Candidate(blocks, k, size)
    && forall j: nat :: Candidate(blocks, j, size) ==>
         if strategy == FIRST_FIT then k <= j
         else if strategy == BEST_FIT then
           blocks[k].size < blocks[j].size || (blocks[k].size == blocks[j].size && k <= j)
         else j <= k
  }

  ghost predicate IsMaximum(blocks: seq<Block>, maximum: nat) {
    && (forall j :: 0 <= j < |blocks| && blocks[j].Free() ==> blocks[j].size <= maximum)
    && (maximum == 0 || exists j :: 0 <= j < |blocks| && blocks[j].Free() && blocks[j].size == maximum)
  }

  /** What one walk over the chain has found so far. */
  datatype Survey = Survey(found: bool, first: nat, best: nat, bestSize: nat, last: nat, maximum: nat)

  const NOTHING_SEEN := Survey(false, 0, 0, 0, 0, 0)

  function Observe(s: Survey, b: Block, size: nat): (s': Survey) {
    if !b.Free() then s else
      var s1 := if b.size > s.maximum then s.(maximum := b.size) else s;
      if b.size < size then s1
      else if !s1.found then s1.(found := true, first := b.segment, best := b.segment, bestSize := b.size, last := b.segment)
      else if b.size < s1.bestSize then s1.(best := b.segment, bestSize := b.size, last := b.segment)
      else s1.(last := b.segment)
  }

  /** The survey names the three choices on `seen`, at the given indices. */
  ghost predicate Surveyed(seen: seq<Block>, size: nat, s: Survey, first: nat, best: nat, last: nat) {
    && IsMaximum(seen, s.maximum)
    && (!s.found ==> forall j: nat :: !Candidate(seen, j, size))
    && (s.found ==>
         && Chosen(FIRST_FIT, seen, size, first) && seen[first].segment == s.first
         && Chosen(BEST_FIT, seen, size, best) && seen[best].segment == s.best && seen[best].size == s.bestSize
         && Chosen(BEST_FIT + 1, seen, size, last) && seen[last].segment == s.last)
  }

  lemma {:induction false} SurveySteps(seen: seq<Block>, size: nat, s: Survey, first: nat, best: nat, last: nat, b: Block)
    requires Surveyed(seen, size, s, first, best, last)
    ensures var s', n := Observe(s, b, size), |seen|;
            var fits := b.Free() && b.size >= size;
            Surveyed(seen + [b], size, s',
                     if fits && !s.found then n else first,
                     if fits && (!s.found || b.size < s.bestSize) then n else best,
                     if fits then n else last)
  {
    var all, n := seen + [b], |seen|;
    assert forall j :: 0 <= j < n ==> all[j] == seen[j];
    assert forall j: nat :: Candidate(all, j, size) <==> Candidate(seen, j, size) || (j == n && b.Free() && b.size >= size);
  }
}

/** Releasing every block of one owner, on any memory contents. */
module McbRelease {
  import opened GuestMemory
  import opened McbChain

  function Disown(b: Block, owner: nat): (after: Block) {
    if b.owner == owner then b.(owner := 0) else b
  }

  /** The chain after the first `k` blocks were visited. */
  function DisownedTo(blocks: seq<Block>, owner: nat, k: nat): (after: seq<Block>)
    ensures |after| == |blocks|
  {
    seq(|blocks|, i requires 0 <= i < |blocks| => if i < k then Disown(blocks[i], owner) else blocks[i])
  }

  function Disowned(blocks: seq<Block>, owner: nat): (after: seq<Block>)
    ensures |after| == |blocks|
    ensures owner != 0 ==> forall i :: 0 <= i < |after| ==> after[i].owner != owner
    ensures forall i :: 0 <= i < |after| ==> after[i].segment == blocks[i].segment && after[i].size == blocks[i].size
    ensures forall i :: 0 <= i < |after| && blocks[i].owner != owner ==> after[i] == blocks[i]
  {
    DisownedTo(blocks, owner, |blocks|)
  }

  /** Byte `a` is one of the two owner bytes of a matching header. */
  ghost predicate OwnerByte(seen: seq<Block>, owner: nat, a: nat) {
    exists i :: 0 <= i < |seen| && seen[i].owner == owner
                && RECORD_BYTES * seen[i].segment + 1 <= a <= RECORD_BYTES * seen[i].segment + 2
  }

  /** Only owner bytes of matching headers differ. */
  ghost predicate OnlyOwners(m0: Memory, m: Memory, seen: seq<Block>, owner: nat) {
    |m| == |m0| && forall a: nat :: a < |m| && !OwnerByte(seen, owner, a) ==> m[a] == m0[a]
  }

  ghost predicate Headers(m: Memory, seen: seq<Block>, done: bool) {
    forall i :: 0 <= i < |seen| ==> HeaderAt(m, seen[i], done && i == |seen| - 1)
  }

  function Ahead(head: nat, seen: seq<Block>): (segment: nat) {
    if seen == [] then head else seen[|seen| - 1].Next()
  }

  /** `seen` is what a walk from `head` met; `done` when it met the last header. */
  ghost predicate Walked(m0: Memory, m: Memory, head: nat, owner: nat, seen: seq<Block>, done: bool) {
    && (seen != [] ==> seen[0].segment == head) && Adjacent(seen) && Ahead(head, seen) <= SEGMENT_LIMIT
    && Headers(m0, seen, done) && Headers(m, DisownedTo(seen, owner, |seen|), done)
    && OnlyOwners(m0, m, seen, owner)
  }

  lemma {:induction false} WalkStarts(m: Memory, head: u16, owner: nat)
    ensures Walked(m, m, head, owner, [], false)
  {
  }

  lemma {:induction false} AheadOfAll(head: nat, seen: seq<Block>, i: nat)
    requires Adjacent(seen) && i < |seen|
    ensures seen[i].segment < Ahead(head, seen)
  {
    if i < |seen| - 1 { Ordered(seen, i, |seen| - 1); }
  }

  /** One of the blocks is the owner's. */
  ghost predicate Names(seen: seq<Block>, owner: nat) {
    exists i :: 0 <= i < |seen| && seen[i].owner == owner
  }

  lemma {:induction false} NamesMore(seen: seq<Block>, b: Block, owner: nat)
    ensures Names(seen + [b], owner) <==> Names(seen, owner) || b.owner == owner
  {
    if Names(seen, owner) {
      var i :| 0 <= i < |seen| && seen[i].owner == owner;
      assert (seen + [b])[i] == seen[i];
    }
    if b.owner == owner { assert (seen + [b])[|seen|] == b; }
  }

  /** A walk gains at least one paragraph with every block. */
  lemma {:induction false} WalkGains(m0: Memory, m: Memory, head: nat, owner: nat, seen: seq<Block>, done: bool)
    requires Walked(m0, m, head, owner, seen, done)
    ensures Ahead(head, seen) >= head + |seen|
  {
    if seen != [] { ChainLength(seen, 0); }
  }

  /** What lies ahead of the walk is untouched. */
  lemma {:induction false} AheadUntouched(m0: Memory, m: Memory, head: nat, owner: nat, seen: seq<Block>)
    requires Walked(m0, m, head, owner, seen, false) && HasRecord(|m|, Ahead(head, seen))
    ensures RecordAt(m, Ahead(head, seen)) == RecordAt(m0, Ahead(head, seen))
  {
    var segment := Ahead(head, seen);
    forall a: nat | RECORD_BYTES * segment <= a < RECORD_BYTES * segment + RECORD_BYTES
      ensures m[a] == m0[a]
    {
      forall i | 0 <= i < |seen|
        ensures seen[i].segment < segment
      {
        AheadOfAll(head, seen, i);
      }
      assert !OwnerByte(seen, owner, a);
    }
    assert RecordAt(m, segment) == RecordAt(m0, segment);
  }

  /** The memory after visiting one header. */
  function Visit(m: Memory, segment: nat, owner: nat): (m': Memory)
    requires HasRecord(|m|, segment)
    ensures |m'| == |m|
  {
    if Owner(RecordAt(m, segment)) == owner then Put(m, segment, SetOwner(RecordAt(m, segment), 0)) else m
  }

  lemma {:induction false} RecordByte(m: Memory, segment: nat, i: nat)
    requires HasRecord(|m|, segment) && i < RECORD_BYTES
    ensures RecordAt(m, segment)[i] == m[RECORD_BYTES * segment + i]
  {
  }

  lemma {:induction false} OwnerOnly(r: seq<byte>, i: nat)
    requires |r| == RECORD_BYTES && i < RECORD_BYTES && i != 1 && i != 2
    ensures SetOwner(r, 0)[i] == r[i]
  {
    hide Lo, Hi, Word, Owner, Size, Signature;
  }

  lemma {:induction false} ByteAfterVisit(m: Memory, segment: nat, owner: nat, a: nat)
    requires HasRecord(|m|, segment) && a < |m|
    requires !(RECORD_BYTES * segment + 1 <= a <= RECORD_BYTES * segment + 2)
    ensures Visit(m, segment, owner)[a] == m[a]
  {
    hide Put, RecordAt, Owner, SetOwner;
    var r := RecordAt(m, segment);
    if Owner(r) == owner {
      var m', i := Put(m, segment, SetOwner(r, 0)), a - RECORD_BYTES * segment;
      RecordAfterPut(m, segment, SetOwner(r, 0));
      if 0 <= i < RECORD_BYTES {
        RecordByte(m, segment, i);
        RecordByte(m', segment, i);
        OwnerOnly(r, i);
      }
    }
  }

  lemma {:induction false} VisitBytes(m: Memory, segment: nat, owner: nat)
    requires HasRecord(|m|, segment)
    ensures forall other: nat :: other != segment && HasRecord(|m|, other) ==>
              RecordAt(Visit(m, segment, owner), other) == RecordAt(m, other)
    ensures RecordAt(Visit(m, segment, owner), segment) ==
      if Owner(RecordAt(m, segment)) == owner then SetOwner(RecordAt(m, segment), 0) else RecordAt(m, segment)
    ensures Owner(RecordAt(m, segment)) != owner ==> Visit(m, segment, owner) == m
  {
    hide Put, RecordAt, Owner, SetOwner;
    if Owner(RecordAt(m, segment)) == owner {
      RecordAfterPut(m, segment, SetOwner(RecordAt(m, segment), 0));
    }
  }

  lemma {:induction false} WalkSteps(m0: Memory, m: Memory, head: nat, owner: nat, seen: seq<Block>, b: Block, last: bool)
    requires Walked(m0, m, head, owner, seen, false) && b.segment == Ahead(head, seen)
    requires HeaderAt(m, b, last) && b.Next() <= SEGMENT_LIMIT
    ensures Walked(m0, Visit(m, b.segment, owner), head, owner, seen + [b], last)
  {
    hide RecordAt, Visit, SetOwner, Word;
    var m', now := Visit(m, b.segment, owner), seen + [b];
    AheadUntouched(m0, m, head, owner, seen);
    VisitBytes(m, b.segment, owner);
    forall i | 0 <= i < |now|
      ensures HeaderAt(m0, now[i], last && i == |now| - 1)
      ensures HeaderAt(m', DisownedTo(now, owner, |now|)[i], last && i == |now| - 1)
    {
      if i < |seen| {
        AheadOfAll(head, seen, i);
        assert HeaderAt(m0, seen[i], false);
        assert HeaderAt(m, DisownedTo(seen, owner, |seen|)[i], false);
      } else {
        DisownHeader(m', RecordAt(m, b.segment), b, owner, last);
      }
    }
    forall a: nat | a < |m0| && !OwnerByte(now, owner, a)
      ensures m'[a] == m0[a]
    {
      OwnerByteGrows(seen, b, owner, a);
      if b.owner == owner { ByteAfterVisit(m, b.segment, owner, a); }
    }
  }

  lemma {:induction false} OwnerByteGrows(seen: seq<Block>, b: Block, owner: nat, a: nat)
    requires !OwnerByte(seen + [b], owner, a)
    ensures !OwnerByte(seen, owner, a)
    ensures b.owner == owner ==> !(RECORD_BYTES * b.segment + 1 <= a <= RECORD_BYTES * b.segment + 2)
  {
    var now := seen + [b];
    assert now[|seen|] == b;
    forall i | 0 <= i < |seen|
      ensures !(seen[i].owner == owner && RECORD_BYTES * seen[i].segment + 1 <= a <= RECORD_BYTES * seen[i].segment + 2)
    {
      assert now[i] == seen[i];
    }
  }

  lemma {:induction false} DisownHeader(m': Memory, r: seq<byte>, b: Block, owner: nat, last: bool)
    requires |r| == RECORD_BYTES && HeaderIs(r, b, last) && HasRecord(|m'|, b.segment)
    requires RecordAt(m', b.segment) == if Owner(r) == owner then SetOwner(r, 0) else r
    ensures HeaderAt(m', Disown(b, owner), last)
  {
  }

  /** A finished walk is a chain before and after. */
  lemma {:induction false} WalkEnds(m0: Memory, m: Memory, head: nat, owner: nat, seen: seq<Block>)
    requires Walked(m0, m, head, owner, seen, true) && seen != []
    ensures IsChain(m0, head, Ahead(head, seen), seen)
    ensures IsChain(m, head, Ahead(head, seen), Disowned(seen, owner))
    ensures OnlyOwners(m0, m, seen, owner)
  {
    hide HeaderAt, OnlyOwners;
  }

  /** A walk along a chain meets its blocks, and the chain survives every step. */
  lemma {:induction false} WalkOfChain(m0: Memory, m: Memory, head: nat, end: nat, blocks: seq<Block>, owner: nat,
                                       seen: seq<Block>, done: bool)
    requires IsChain(m0, head, end, blocks) && Walked(m0, m, head, owner, seen, done)
    ensures |seen| <= |blocks| && seen == blocks[..|seen|] && (done && seen != [] ==> seen == blocks)
    ensures IsChain(m, head, end, DisownedTo(blocks, owner, |seen|))
  {
    hide RecordAt, HeaderIs, OnlyOwners, OwnerByte;
    WalkPrefix(m0, m, head, end, blocks, owner, seen, done, |seen|);
    TiledIsOrdered(blocks, head, end);
    var after := DisownedTo(blocks, owner, |seen|);
    forall i | 0 <= i < |after|
      ensures HeaderAt(m, after[i], i == |after| - 1)
    {
      if i < |seen| {
        assert HeaderAt(m, DisownedTo(seen, owner, |seen|)[i], done && i == |seen| - 1);
        assert HeaderAt(m0, seen[i], done && i == |seen| - 1) && HeaderAt(m0, blocks[i], i == |blocks| - 1);
        SameFlag(m0, blocks[i], done && i == |seen| - 1, i == |blocks| - 1);
      } else {
        assert HeaderAt(m0, blocks[i], i == |blocks| - 1);
        BeyondUntouched(m0, m, head, end, blocks, owner, seen, i);
      }
    }
    if done && seen != [] {
      var k := |seen| - 1;
      assert HeaderAt(m0, seen[k], true) && HeaderAt(m0, blocks[k], k == |blocks| - 1);
      SameFlag(m0, blocks[k], true, k == |blocks| - 1);
    }
  }

  /** An unfinished walk along a chain stands at the next header of the chain. */
  lemma {:induction false} WalkOnChain(m0: Memory, m: Memory, head: nat, end: nat, blocks: seq<Block>, owner: nat,
                                       seen: seq<Block>)
    requires IsChain(m0, head, end, blocks) && Walked(m0, m, head, owner, seen, false)
    ensures |seen| < |blocks| && Ahead(head, seen) == blocks[|seen|].segment
    ensures HeaderAt(m, blocks[|seen|], |seen| == |blocks| - 1)
    ensures blocks[|seen|].Next() <= SEGMENT_LIMIT && (|seen| < |blocks| - 1 ==> blocks[|seen|].Next() < SEGMENT_LIMIT)
  {
    hide RecordAt, HeaderIs, OnlyOwners, OwnerByte;
    WalkOfChain(m0, m, head, end, blocks, owner, seen, false);
    TiledIsOrdered(blocks, head, end);
    if seen != [] {
      var k := |seen| - 1;
      assert HeaderAt(m0, seen[k], false) && HeaderAt(m0, blocks[k], k == |blocks| - 1);
      SameFlag(m0, blocks[k], false, k == |blocks| - 1);
      assert blocks[k].Next() == blocks[k + 1].segment;
    }
    var k := |seen|;
    assert HeaderAt(m, DisownedTo(blocks, owner, k)[k], k == |blocks| - 1);
    if k < |blocks| - 1 { assert blocks[k].Next() <= blocks[k + 1].segment; }
  }

  lemma {:induction false} SameFlag(m: Memory, b: Block, last: bool, last': bool)
    requires HeaderAt(m, b, last) && HeaderAt(m, b, last')
    ensures last == last'
  {
  }

  lemma {:induction false} BeyondUntouched(m0: Memory, m: Memory, head: nat, end: nat, blocks: seq<Block>, owner: nat,
                                           seen: seq<Block>, i: nat)
    requires Tiled(blocks, head, end) && |seen| <= i < |blocks| && seen == blocks[..|seen|]
    requires OnlyOwners(m0, m, seen, owner) && HasRecord(|m0|, blocks[i].segment)
    ensures |m| == |m0|
    ensures RecordAt(m, blocks[i].segment) == RecordAt(m0, blocks[i].segment)
  {
    TiledIsOrdered(blocks, head, end);
    var segment := blocks[i].segment;
    forall a: nat | RECORD_BYTES * segment <= a < RECORD_BYTES * segment + RECORD_BYTES
      ensures m[a] == m0[a]
    {
      forall j | 0 <= j < |seen|
        ensures seen[j].segment < segment
      {
        assert seen[j] == blocks[j] && blocks[j].Next() <= blocks[i].segment;
      }
      assert !OwnerByte(seen, owner, a);
    }
  }

  lemma {:induction false} WalkPrefix(m0: Memory, m: Memory, head: nat, end: nat, blocks: seq<Block>, owner: nat,
                                      seen: seq<Block>, done: bool, n: nat)
    requires IsChain(m0, head, end, blocks) && Walked(m0, m, head, owner, seen, done) && n <= |seen|
    ensures n <= |blocks| && seen[..n] == blocks[..n]
  {
    hide RecordAt, OnlyOwners, Word;
    if n > 0 {
      WalkPrefix(m0, m, head, end, blocks, owner, seen, done, n - 1);
      var k := n - 1;
      assert HeaderAt(m0, seen[k], done && k == |seen| - 1);
      if k > 0 {
        assert seen[..k][k - 1] == blocks[..k][k - 1];
        assert HeaderAt(m0, seen[k - 1], false) && HeaderAt(m0, blocks[k - 1], k - 1 == |blocks| - 1);
        assert seen[k - 1].Next() == seen[k].segment && blocks[k - 1].Next() == blocks[k].segment;
      }
      assert HeaderAt(m0, blocks[k], k == |blocks| - 1);
      assert seen[k] == blocks[k];
    }
  }
}

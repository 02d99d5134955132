/** The memory-control-block chain that lives inside guest memory.

    A header is one 16-byte paragraph: signature, owner, size.  The chain is read
    off memory from the head: `IsChain(m, head, end, blocks)` says that walking
    the headers in `m` visits exactly `blocks` and that these tile [head, end). */
module McbChain {
  import opened GuestMemory

  const NORMAL: byte := 0x4d
  const LAST: byte := 0x5a
  const RECORD_BYTES := 16
  const SEGMENT_LIMIT := 0x1_0000

  datatype Block = Block(segment: nat, size: nat, owner: nat) {
    predicate Free() { owner == 0 }
    function Next(): (next: nat) { segment + size + 1 }
  }

  // ---------- the 16-byte record ----------

  /** A little-endian word, by repeated addition: most proofs only compare words. */
  function Word(lo: byte, hi: byte): (w: u16)
    ensures w < 0x100 * hi + 0x100
  {
    if hi == 0 then lo else Word(lo, hi - 1) + 0x100
  }

  lemma {:induction false} WordValue(lo: byte, hi: byte)
    ensures Word(lo, hi) == lo + 0x100 * hi
  {
    if hi > 0 { WordValue(lo, hi - 1); }
  }

  function Lo(w: u16): (b: byte) { w % 0x100 }
  function Hi(w: u16): (b: byte) { w / 0x100 }

  lemma {:induction false} WordRoundTrip(w: u16)
    ensures Word(Lo(w), Hi(w)) == w
  {
    WordValue(Lo(w), Hi(w));
  }

  function Signature(r: seq<byte>): byte requires |r| == RECORD_BYTES { r[0] }
  function Owner(r: seq<byte>): u16 requires |r| == RECORD_BYTES { Word(r[1], r[2]) }
  function Size(r: seq<byte>): u16 requires |r| == RECORD_BYTES { Word(r[3], r[4]) }

  function SetSignature(r: seq<byte>, signature: byte): (r': seq<byte>)
    requires |r| == RECORD_BYTES
    ensures |r'| == RECORD_BYTES
    ensures Signature(r') == signature && Owner(r') == Owner(r) && Size(r') == Size(r)
  {
    r[0 := signature]
  }

  function SetOwner(r: seq<byte>, owner: u16): (r': seq<byte>)
    requires |r| == RECORD_BYTES
    ensures |r'| == RECORD_BYTES
    ensures Signature(r') == Signature(r) && Owner(r') == owner && Size(r') == Size(r)
  {
    WordRoundTrip(owner);
    r[1 := Lo(owner)][2 := Hi(owner)]
  }

  function SetSize(r: seq<byte>, size: u16): (r': seq<byte>)
    requires |r| == RECORD_BYTES
    ensures |r'| == RECORD_BYTES
    ensures Signature(r') == Signature(r) && Owner(r') == Owner(r) && Size(r') == size
  {
    WordRoundTrip(size);
    r[3 := Lo(size)][4 := Hi(size)]
  }

  /** Overwrite the first bytes of the owner name; an empty name changes nothing. */
  function SetName(r: seq<byte>, name: seq<byte>): (r': seq<byte>)
    requires |r| == RECORD_BYTES && |name| <= 8
    ensures |r'| == RECORD_BYTES
    ensures Signature(r') == Signature(r) && Owner(r') == Owner(r) && Size(r') == Size(r)
  {
    r[..8] + name + r[8 + |name|..]
  }

  ghost predicate HeaderIs(r: seq<byte>, b: Block, last: bool) {
    && |r| == RECORD_BYTES
    && Signature(r) == (if last then LAST else NORMAL)
    && Owner(r) == b.owner && Size(r) == b.size
  }

  // ---------- records in memory ----------

  predicate HasRecord(limit: nat, segment: nat) {
    RECORD_BYTES * segment + RECORD_BYTES <= limit
  }

  function RecordRange(segment: nat): (range: Addresses)
    ensures |range| == RECORD_BYTES
  {
    LinearRange(RECORD_BYTES * segment, RECORD_BYTES)
  }

  lemma {:induction false} RecordRangeWithin(segment: nat, limit: nat)
    ensures Within(RecordRange(segment), limit) <==> HasRecord(limit, segment)
  {
    if !HasRecord(limit, segment) {
      assert RecordRange(segment)[RECORD_BYTES - 1] >= limit;
    }
  }

  /** Reading a header through segment:0 never meets the offset or the A20 wrap. */
  lemma {:induction false} RecordIsParagraph(segment: u16, a20: bool)
    ensures FarRange(segment, 0, RECORD_BYTES, a20) == RecordRange(segment)
    ensures Linear(segment, 0, a20) == RECORD_BYTES * segment
  {
  }

  function RecordAt(m: Memory, segment: nat): (r: seq<byte>)
    requires HasRecord(|m|, segment)
    ensures |r| == RECORD_BYTES
  {
    RecordRangeWithin(segment, |m|);
    Load(m, RecordRange(segment))
  }

  function Put(m: Memory, segment: nat, r: seq<byte>): (m': Memory)
    requires HasRecord(|m|, segment) && |r| == RECORD_BYTES
    ensures |m'| == |m|
  {
    RecordRangeWithin(segment, |m|);
    Store(m, RecordRange(segment), r)
  }

  lemma {:induction false} PutIsStore(m: Memory, segment: nat, r: seq<byte>)
    requires HasRecord(|m|, segment) && |r| == RECORD_BYTES
    ensures Within(LinearRange(RECORD_BYTES * segment, RECORD_BYTES), |m|)
    ensures Put(m, segment, r) == Store(m, LinearRange(RECORD_BYTES * segment, RECORD_BYTES), r)
  {
    RecordRangeWithin(segment, |m|);
  }

  lemma {:induction false} RecordAfterPut(m: Memory, segment: nat, r: seq<byte>)
    requires HasRecord(|m|, segment) && |r| == RECORD_BYTES
    ensures RecordAt(Put(m, segment, r), segment) == r
    ensures forall other: nat :: other != segment && HasRecord(|m|, other) ==>
              RecordAt(Put(m, segment, r), other) == RecordAt(m, other)
    ensures forall a :: 0 <= a < |m| && !(RECORD_BYTES * segment <= a < RECORD_BYTES * segment + RECORD_BYTES) ==>
              Put(m, segment, r)[a] == m[a]
  {
    var range := RecordRange(segment);
    RecordRangeWithin(segment, |m|);
    LoadAfterStore(m, range, r);
    StoreFrame(m, range, r);
    var m' := Put(m, segment, r);
    forall a | 0 <= a < |m| && !(RECORD_BYTES * segment <= a < RECORD_BYTES * segment + RECORD_BYTES)
      ensures m'[a] == m[a]
    {
      InLinearRange(RECORD_BYTES * segment, RECORD_BYTES, a);
    }
    forall other: nat | other != segment && HasRecord(|m|, other)
      ensures RecordAt(m', other) == RecordAt(m, other)
    {
    }
  }

  lemma {:induction false} PutSame(m: Memory, segment: nat)
    requires HasRecord(|m|, segment)
    ensures Put(m, segment, RecordAt(m, segment)) == m
  {
    RecordRangeWithin(segment, |m|);
    StoreRestores(m, m, RecordRange(segment));
  }

  lemma {:induction false} PutUndo(m: Memory, segment: nat, r: seq<byte>)
    requires HasRecord(|m|, segment) && |r| == RECORD_BYTES
    ensures Put(Put(m, segment, r), segment, RecordAt(m, segment)) == m
  {
    RecordRangeWithin(segment, |m|);
    StoreFrame(m, RecordRange(segment), r);
    StoreRestores(m, Put(m, segment, r), RecordRange(segment));
  }

  // ---------- the chain ----------

  ghost predicate Adjacent(blocks: seq<Block>) {
    forall i :: 0 <= i < |blocks| - 1 ==> blocks[i].Next() == blocks[i + 1].segment
  }

  /** The blocks tile [head, end), inside the 64 Ki paragraphs of real mode. */
  ghost predicate Tiled(blocks: seq<Block>, head: nat, end: nat) {
    && |blocks| > 0 && blocks[0].segment == head && blocks[|blocks| - 1].Next() == end
    && Adjacent(blocks) && end <= SEGMENT_LIMIT
  }

  ghost predicate HeaderAt(m: Memory, b: Block, last: bool) {
    HasRecord(|m|, b.segment) && HeaderIs(RecordAt(m, b.segment), b, last)
  }

  ghost predicate Decoded(m: Memory, blocks: seq<Block>) {
    forall i :: 0 <= i < |blocks| ==> HeaderAt(m, blocks[i], i == |blocks| - 1)
  }

  ghost predicate IsChain(m: Memory, head: nat, end: nat, blocks: seq<Block>) {
    Tiled(blocks, head, end) && Decoded(m, blocks)
  }

  ghost predicate Tiles(m: Memory, head: nat, end: nat) {
    exists blocks :: IsChain(m, head, end, blocks)
  }

  lemma {:induction false} Ordered(blocks: seq<Block>, i: nat, j: nat)
    requires Adjacent(blocks) && i < j < |blocks|
    ensures blocks[i].Next() <= blocks[j].segment
    decreases j - i
  {
    if i + 1 < j {
      Ordered(blocks, i + 1, j);
      assert blocks[i].Next() == blocks[i + 1].segment;
    }
  }

  /** Headers are strictly increasing, blocks never overlap and never pass the end. */
  lemma {:induction false} TiledIsOrdered(blocks: seq<Block>, head: nat, end: nat)
    requires Tiled(blocks, head, end)
    ensures forall i, j :: 0 <= i < j < |blocks| ==> blocks[i].Next() <= blocks[j].segment
    ensures forall i :: 0 <= i < |blocks| ==> head <= blocks[i].segment && blocks[i].Next() <= end
  {
    forall i, j | 0 <= i < j < |blocks|
      ensures blocks[i].Next() <= blocks[j].segment
    {
      Ordered(blocks, i, j);
    }
  }

  lemma {:induction false} TiledIndex(blocks: seq<Block>, head: nat, end: nat, i: nat)
    requires Tiled(blocks, head, end) && i < |blocks|
    ensures blocks[i].segment >= head + i
    ensures |blocks| <= end - head
    decreases i
  {
    if i > 0 { TiledIndex(blocks, head, end, i - 1); }
    if i < |blocks| - 1 { ChainLength(blocks, i); }
  }

  lemma {:induction false} ChainLength(blocks: seq<Block>, i: nat)
    requires Adjacent(blocks) && i < |blocks|
    ensures blocks[|blocks| - 1].Next() >= blocks[i].segment + (|blocks| - i)
    decreases |blocks| - i
  {
    if i < |blocks| - 1 { ChainLength(blocks, i + 1); }
  }

  /** Replace `cut` blocks from index `i` on by `patch`. */
  function Splice(blocks: seq<Block>, i: nat, cut: nat, patch: seq<Block>): (after: seq<Block>)
    requires i + cut <= |blocks|
  {
    blocks[..i] + patch + blocks[i + cut..]
  }

  ghost predicate PatchFits(blocks: seq<Block>, i: nat, cut: nat, patch: seq<Block>) {
    && 0 < cut && i + cut <= |blocks| && |patch| > 0 && Adjacent(patch)
    && patch[0].segment == blocks[i].segment
    && patch[|patch| - 1].Next() == blocks[i + cut - 1].Next()
  }

  lemma {:induction false} SpliceTiled(blocks: seq<Block>, head: nat, end: nat, i: nat, cut: nat, patch: seq<Block>)
    requires Tiled(blocks, head, end) && PatchFits(blocks, i, cut, patch)
    ensures Tiled(Splice(blocks, i, cut, patch), head, end)
  {
    var after := Splice(blocks, i, cut, patch);
    forall j | 0 <= j < |after| - 1
      ensures after[j].Next() == after[j + 1].segment
    {
      if j < i - 1 {
        assert blocks[j].Next() == blocks[j + 1].segment;
      } else if j == i - 1 {
        assert blocks[j].Next() == blocks[j + 1].segment;
        assert after[j + 1] == patch[0];
      } else if j < i + |patch| - 1 {
        assert after[j] == patch[j - i] && after[j + 1] == patch[j - i + 1];
      } else {
        var k := j - |patch| + cut;
        assert after[j + 1] == blocks[k + 1];
        assert blocks[k].Next() == blocks[k + 1].segment;
        if j == i + |patch| - 1 {
          assert after[j] == patch[|patch| - 1];
        } else {
          assert after[j] == blocks[k];
        }
      }
    }
    if i + cut == |blocks| {
      assert after[|after| - 1] == patch[|patch| - 1];
    } else {
      assert after[|after| - 1] == blocks[|blocks| - 1];
    }
  }

  /** One header write turns one chain into another: the header of block `i` is
      rewritten to describe `patch[0]`, and the remaining patch headers were
      already in place behind it. */
  lemma {:induction false} ChainRewrite(m: Memory, head: nat, end: nat, blocks: seq<Block>, i: nat, cut: nat,
                                        patch: seq<Block>, r: seq<byte>)
    requires IsChain(m, head, end, blocks) && PatchFits(blocks, i, cut, patch)
    requires |r| == RECORD_BYTES && HeaderIs(r, patch[0], |patch| == 1 && i + cut == |blocks|)
    requires forall j :: 1 <= j < |patch| ==> HeaderAt(m, patch[j], j == |patch| - 1 && i + cut == |blocks|)
    ensures HasRecord(|m|, blocks[i].segment)
    ensures IsChain(Put(m, blocks[i].segment, r), head, end, Splice(blocks, i, cut, patch))
  {
    hide Put, RecordAt, HeaderIs, Adjacent;
    assert HeaderAt(m, blocks[i], i == |blocks| - 1);
    var segment, after := blocks[i].segment, Splice(blocks, i, cut, patch);
    var m' := Put(m, segment, r);
    SpliceTiled(blocks, head, end, i, cut, patch);
    TiledIsOrdered(after, head, end);
    RecordAfterPut(m, segment, r);
    assert after[i] == patch[0];
    forall j | 0 <= j < |after|
      ensures HeaderAt(m', after[j], j == |after| - 1)
    {
      if j < i {
        assert HeaderAt(m, blocks[j], j == |blocks| - 1);
        assert after[j].Next() <= after[i].segment;
      } else if j > i {
        assert after[i].Next() <= after[j].segment;
        if j < i + |patch| {
          assert HeaderAt(m, patch[j - i], j - i == |patch| - 1 && i + cut == |blocks|);
        } else {
          var k := j - |patch| + cut;
          assert after[j] == blocks[k];
          assert HeaderAt(m, blocks[k], k == |blocks| - 1);
        }
      }
    }
  }

  /** A write to a paragraph that is no header of the chain leaves the chain. */
  lemma {:induction false} ChainFrame(m: Memory, m': Memory, head: nat, end: nat, blocks: seq<Block>)
    requires IsChain(m, head, end, blocks) && |m'| == |m|
    requires forall i :: 0 <= i < |blocks| && HasRecord(|m|, blocks[i].segment) ==>
               RecordAt(m', blocks[i].segment) == RecordAt(m, blocks[i].segment)
    ensures IsChain(m', head, end, blocks)
  {
    hide RecordAt, HeaderIs;
    forall i | 0 <= i < |blocks|
      ensures HeaderAt(m', blocks[i], i == |blocks| - 1)
    {
      assert HeaderAt(m, blocks[i], i == |blocks| - 1);
    }
  }

  /** The chain is a function of memory. */
  lemma {:induction false} ChainUnique(m: Memory, head: nat, end: nat, end': nat, b1: seq<Block>, b2: seq<Block>)
    requires IsChain(m, head, end, b1) && IsChain(m, head, end', b2)
    ensures b1 == b2 && end == end'
  {
    var n := if |b1| < |b2| then |b1| else |b2|;
    SamePrefix(m, head, end, end', b1, b2, n);
    assert HeaderAt(m, b1[n - 1], n == |b1|) && HeaderAt(m, b2[n - 1], n == |b2|);
    assert b1[..n] == b2[..n];
  }

  lemma {:induction false} SamePrefix(m: Memory, head: nat, end: nat, end': nat, b1: seq<Block>, b2: seq<Block>, n: nat)
    requires IsChain(m, head, end, b1) && IsChain(m, head, end', b2) && n <= |b1| && n <= |b2|
    ensures b1[..n] == b2[..n]
  {
    if n > 0 {
      SamePrefix(m, head, end, end', b1, b2, n - 1);
      var k := n - 1;
      if k > 0 {
        assert b1[..k][k - 1] == b2[..k][k - 1];
        assert b1[k - 1].Next() == b1[k].segment && b2[k - 1].Next() == b2[k].segment;
      }
      assert HeaderAt(m, b1[k], k == |b1| - 1) && HeaderAt(m, b2[k], k == |b2| - 1);
      assert b1[k] == b2[k];
    }
  }
}

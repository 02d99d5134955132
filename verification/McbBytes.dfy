/** Memory control blocks byte by byte, as they lie in guest memory. */
module McbBytes {
  import opened GuestMemory
  import opened McbChain

  /** Sixteen bytes at the block's header: `M` or, for the last one, `Z`; owner
      and size, low byte first. */
  ghost predicate RawHeader(m: Memory, b: Block, last: bool) {
    var a := 16 * b.segment;
    && a + 16 <= |m| && m[a] == (if last then 0x5a else 0x4d)
    && m[a + 1] as int + 256 * (m[a + 2] as int) == b.owner && m[a + 3] as int + 256 * (m[a + 4] as int) == b.size
  }

  /** Headers that tile the arena, each naming the place of the next. */
  ghost predicate RawChain(m: Memory, head: nat, end: nat, blocks: seq<Block>) {
    && |blocks| > 0 && blocks[0].segment == head && end <= 0x1_0000
    && (forall i :: 0 <= i < |blocks| ==> RawHeader(m, blocks[i], i == |blocks| - 1))
    && (forall i :: 0 <= i < |blocks| - 1 ==> blocks[i].segment + blocks[i].size + 1 == blocks[i + 1].segment)
    && var last := blocks[|blocks| - 1]; last.segment + last.size + 1 == end
  }

  lemma {:induction false} RecordBytes(m: Memory, segment: nat)
    requires HasRecord(|m|, segment)
    ensures RecordAt(m, segment) == m[16 * segment..16 * segment + 16]
  {
    var r := RecordAt(m, segment);
    forall i | 0 <= i < 16 ensures r[i] == m[16 * segment + i] {
    }
  }

  /** What a header means is what its bytes are. */
  lemma {:induction false} HeaderBytes(m: Memory, b: Block, last: bool)
    ensures HeaderAt(m, b, last) <==> RawHeader(m, b, last)
  {
    hide RecordAt, Word;
    if HasRecord(|m|, b.segment) {
      var a := 16 * b.segment;
      RecordBytes(m, b.segment);
      WordValue(m[a + 1], m[a + 2]);
      WordValue(m[a + 3], m[a + 4]);
    }
  }

  lemma {:induction false} ChainBytes(m: Memory, head: nat, end: nat, blocks: seq<Block>)
    ensures IsChain(m, head, end, blocks) <==> RawChain(m, head, end, blocks)
  {
    hide HeaderAt, RawHeader;
    forall i | 0 <= i < |blocks|
      ensures HeaderAt(m, blocks[i], i == |blocks| - 1) <==> RawHeader(m, blocks[i], i == |blocks| - 1)
    {
      HeaderBytes(m, blocks[i], i == |blocks| - 1);
    }
  }

  /** Of a header's other bytes, the name takes the first ones from the ninth on,
      and the rest stays as it was. */
  ghost predicate NameWritten(m0: Memory, m: Memory, segment: nat, name: seq<byte>) {
    var a := 16 * segment;
    && |m| == |m0| && a + 16 <= |m| && |name| <= 8
    && (forall i :: 0 <= i < |name| ==> m[a + 8 + i] == name[i])
    && (forall x :: a + 5 <= x < a + 16 && !(a + 8 <= x < a + 8 + |name|) ==> m[x] == m0[x])
  }

  lemma {:induction false} NameStays(m0: Memory, m: Memory, segment: nat, name: seq<byte>)
    requires HasRecord(|m0|, segment) && |m| == |m0| && |name| <= 8
    requires forall i :: 0 <= i < |name| ==> RecordAt(m, segment)[8 + i] == name[i]
    requires forall i :: 5 <= i < 16 && !(8 <= i < 8 + |name|) ==> RecordAt(m, segment)[i] == RecordAt(m0, segment)[i]
    ensures NameWritten(m0, m, segment, name)
  {
    hide RecordAt;
    var a := 16 * segment;
    RecordBytes(m, segment);
    RecordBytes(m0, segment);
    forall x | a + 5 <= x < a + 16 && !(a + 8 <= x < a + 8 + |name|) ensures m[x] == m0[x] {
      assert RecordAt(m, segment)[x - a] == RecordAt(m0, segment)[x - a];
    }
    forall i | 0 <= i < |name| ensures m[a + 8 + i] == name[i] {
      assert RecordAt(m, segment)[8 + i] == name[i];
    }
  }

  lemma {:induction false} PutByte(m: Memory, segment: nat, r: seq<byte>, a: nat)
    requires HasRecord(|m|, segment) && |r| == RECORD_BYTES && a < |m|
    ensures Put(m, segment, r)[a] ==
      if RECORD_BYTES * segment <= a < RECORD_BYTES * segment + RECORD_BYTES then r[a - RECORD_BYTES * segment] else m[a]
  {
    hide Put;
    RecordAfterPut(m, segment, r);
    var m' := Put(m, segment, r);
    if RECORD_BYTES * segment <= a < RECORD_BYTES * segment + RECORD_BYTES {
      assert RecordAt(m', segment)[a - RECORD_BYTES * segment] == m'[a];
    }
  }
}

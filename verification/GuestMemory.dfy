/** Guest memory as bytes, and what a segmented transfer means.

    A transfer is described by the list of linear addresses it touches, one per
    byte, in transfer order.  Everything the kernel does to guest memory is a
    `Load` or a `Store` over such a list, whether the list came from a linear
    range or from a segment:offset pair that wraps. */
module GuestMemory {

  type byte = x: int | 0 <= x < 0x100
  type u16 = x: int | 0 <= x < 0x1_0000
  type u64 = x: int | 0 <= x < 0x1_0000_0000_0000_0000
  type Memory = seq<byte>
  type Addresses = seq<nat>

  const OFFSET_WRAP := 0x1_0000
  const A20_WRAP := 0x10_0000
  const GUEST_LIMIT := 0x1_0000_0000

  /** Real-mode address translation; with A20 masked the address wraps at 1 MiB. */
  function Linear(segment: u16, offset: u16, a20: bool): (address: nat) {
    var address := segment * 16 + offset;
    if a20 || address < A20_WRAP then address else address - A20_WRAP
  }

  lemma {:induction false} LinearWrapsAtMegabyte(segment: u16, offset: u16)
    ensures Linear(segment, offset, true) == 16 * segment + offset
    ensures Linear(segment, offset, false) == (16 * segment + offset) % 0x10_0000
  {
  }

  /** 16-bit offset arithmetic. */
  function Advance(offset: u16, count: nat): (after: u16) {
    if offset + count < OFFSET_WRAP then offset + count
    else if count < OFFSET_WRAP then offset + count - OFFSET_WRAP
    else Advance(offset, count - OFFSET_WRAP)
  }

  lemma {:induction false} AdvanceWraps(offset: u16, count: nat)
    ensures Advance(offset, count) == (offset + count) % OFFSET_WRAP
  {
    if count >= OFFSET_WRAP { AdvanceWraps(offset, count - OFFSET_WRAP); }
  }

  lemma {:induction false} AdvanceTwice(offset: u16, n: nat, k: nat)
    ensures Advance(Advance(offset, n), k) == Advance(offset, n + k)
  {
    AdvanceWraps(offset, n);
    AdvanceWraps(Advance(offset, n), k);
    AdvanceWraps(offset, n + k);
  }

  /** Byte `i` of a far object: the offset wraps inside its segment first. */
  function FarAddress(segment: u16, offset: u16, i: nat, a20: bool): (address: nat) {
    Linear(segment, Advance(offset, i), a20)
  }

  function FarRange(segment: u16, offset: u16, count: nat, a20: bool): (range: Addresses)
    ensures |range| == count
  {
    seq(count, i requires 0 <= i => FarAddress(segment, offset, i, a20))
  }

  /** The address of every byte of a far object, with both wraps. */
  lemma {:induction false} FarRangeMeaning(segment: u16, offset: u16, count: nat, i: nat)
    requires i < count
    ensures FarRange(segment, offset, count, true)[i] == 16 * segment + (offset + i) % 0x1_0000
    ensures FarRange(segment, offset, count, false)[i] == (16 * segment + (offset + i) % 0x1_0000) % 0x10_0000
  {
    AdvanceWraps(offset, i);
    LinearWrapsAtMegabyte(segment, Advance(offset, i));
  }

  function LinearRange(at: nat, count: nat): (range: Addresses)
    ensures |range| == count
  {
    seq(count, i requires 0 <= i => at + i)
  }

  lemma {:induction false} InLinearRange(at: nat, count: nat, a: nat)
    ensures a in LinearRange(at, count) <==> at <= a < at + count
  {
    var range := LinearRange(at, count);
    if at <= a < at + count { assert range[a - at] == a; }
  }

  predicate Within(range: Addresses, limit: nat) {
    forall i :: 0 <= i < |range| ==> range[i] < limit
  }

  lemma {:induction false} LinearRangeWithin(at: nat, count: nat, limit: nat)
    requires at + count <= limit
    ensures Within(LinearRange(at, count), limit)
  {
  }

  lemma {:induction false} WithinSlice(range: Addresses, limit: nat, i: nat, j: nat)
    requires i <= j <= |range| && Within(range, limit)
    ensures Within(range[..i], limit) && Within(range[..j], limit) && Within(range[i..j], limit)
  {
    assert forall k :: 0 <= k < j - i ==> range[i..j][k] == range[i + k];
  }

  function Load(m: Memory, range: Addresses): (bytes: seq<byte>)
    requires Within(range, |m|)
    ensures |bytes| == |range|
  {
    seq(|range|, i requires 0 <= i < |range| => m[range[i]])
  }

  /** Write the bytes one after the other; a later byte wins over an earlier one. */
  function Store(m: Memory, range: Addresses, bytes: seq<byte>): (after: Memory)
    requires |range| == |bytes| && Within(range, |m|)
    ensures |after| == |m|
    decreases |range|
  {
    if |range| == 0 then m else
      var n := |range| - 1;
      Store(m, range[..n], bytes[..n])[range[n] := bytes[n]]
  }

  /** The two memories differ at most at the listed addresses. */
  ghost predicate AgreeOutside(m: Memory, m': Memory, range: Addresses) {
    && |m| == |m'|
    && forall a :: 0 <= a < |m| && a !in range ==> m[a] == m'[a]
  }

  /** Equal addresses carry equal bytes, so the order of the writes is irrelevant. */
  ghost predicate Consistent(range: Addresses, bytes: seq<byte>)
    requires |range| == |bytes|
  {
    forall i, j :: 0 <= i < |range| && 0 <= j < |range| && range[i] == range[j] ==> bytes[i] == bytes[j]
  }

  ghost predicate Injective(range: Addresses) {
    forall i, j :: 0 <= i < j < |range| ==> range[i] != range[j]
  }

  lemma {:induction false} StoreFrame(m: Memory, range: Addresses, bytes: seq<byte>)
    requires |range| == |bytes| && Within(range, |m|)
    ensures AgreeOutside(m, Store(m, range, bytes), range)
    decreases |range|
  {
    if |range| > 0 {
      var n := |range| - 1;
      StoreFrame(m, range[..n], bytes[..n]);
    }
  }

  /** The last byte written to an address is the one that stays. */
  lemma {:induction false} StoreLast(m: Memory, range: Addresses, bytes: seq<byte>, i: nat)
    requires |range| == |bytes| && Within(range, |m|) && i < |range|
    requires forall j :: i < j < |range| ==> range[j] != range[i]
    ensures Store(m, range, bytes)[range[i]] == bytes[i]
    decreases |range|
  {
    var n := |range| - 1;
    if i < n {
      assert range[n] != range[i];
      StoreLast(m, range[..n], bytes[..n], i);
    }
  }

  lemma {:induction false} StoreReads(m: Memory, range: Addresses, bytes: seq<byte>, i: nat)
    requires |range| == |bytes| && Within(range, |m|) && Consistent(range, bytes)
    requires i < |range|
    ensures Store(m, range, bytes)[range[i]] == bytes[i]
    decreases |range|
  {
    var n := |range| - 1;
    if range[i] != range[n] {
      StoreReads(m, range[..n], bytes[..n], i);
    }
  }

  /** Reading back what was stored: the round trip of a transfer that does not
      visit an address twice. */
  lemma {:induction false} LoadAfterStore(m: Memory, range: Addresses, bytes: seq<byte>)
    requires |range| == |bytes| && Within(range, |m|) && Injective(range)
    ensures Load(Store(m, range, bytes), range) == bytes
  {
    forall i | 0 <= i < |range|
      ensures Store(m, range, bytes)[range[i]] == bytes[i]
    {
      StoreReads(m, range, bytes, i);
    }
  }

  /** Storing what another memory holds at the only addresses where the two may
      differ turns the one into the other, however often an address repeats. */
  lemma {:induction false} StoreRestores(m0: Memory, m: Memory, range: Addresses)
    requires Within(range, |m0|) && AgreeOutside(m0, m, range)
    ensures Store(m, range, Load(m0, range)) == m0
  {
    var bytes := Load(m0, range);
    var after := Store(m, range, bytes);
    StoreFrame(m, range, bytes);
    forall a | 0 <= a < |m0|
      ensures after[a] == m0[a]
    {
      if a in range {
        var i :| 0 <= i < |range| && range[i] == a;
        StoreReads(m, range, bytes, i);
      }
    }
    assert after == m0;
  }

  lemma {:induction false} StoreAppend(m: Memory, r1: Addresses, b1: seq<byte>, r2: Addresses, b2: seq<byte>)
    requires |r1| == |b1| && |r2| == |b2| && Within(r1, |m|) && Within(r2, |m|)
    ensures Within(r1 + r2, |m|)
    ensures Store(m, r1 + r2, b1 + b2) == Store(Store(m, r1, b1), r2, b2)
    decreases |r2|
  {
    assert Within(r1 + r2, |m|);
    if |r2| == 0 {
      assert r1 + r2 == r1 && b1 + b2 == b1;
    } else {
      var n := |r2| - 1;
      StoreAppend(m, r1, b1, r2[..n], b2[..n]);
      assert (r1 + r2)[..|r1| + n] == r1 + r2[..n];
      assert (b1 + b2)[..|b1| + n] == b1 + b2[..n];
    }
  }

  /** A far range is the concatenation of its chunks. */
  lemma {:induction false} FarRangeSplit(segment: u16, offset: u16, n: nat, k: nat, a20: bool)
    ensures FarRange(segment, offset, n + k, a20)
         == FarRange(segment, offset, n, a20) + FarRange(segment, Advance(offset, n), k, a20)
  {
    var whole := FarRange(segment, offset, n + k, a20);
    var parts := FarRange(segment, offset, n, a20) + FarRange(segment, Advance(offset, n), k, a20);
    forall i | 0 <= i < n + k
      ensures whole[i] == parts[i]
    {
      if i >= n {
        AdvanceTwice(offset, n, i - n);
      }
    }
  }

  lemma {:induction false} FarPieceWithin(limit: nat, segment: u16, offset: u16, count: nat, n: nat, k: nat, a20: bool)
    requires n + k <= count && Within(FarRange(segment, offset, count, a20), limit)
    ensures Within(FarRange(segment, Advance(offset, n), k, a20), limit)
  {
    var piece := FarRange(segment, Advance(offset, n), k, a20);
    FarRangeSplit(segment, offset, n, count - n, a20);
    forall i | 0 <= i < k
      ensures piece[i] < limit
    {
      assert piece[i] == FarRange(segment, offset, count, a20)[n + i];
    }
  }

  /** Two far writes in a row, the second where the first ended, are one. */
  lemma {:induction false} FarStoreAppend(m: Memory, segment: u16, offset: u16, bytes: seq<byte>, n: nat, k: nat, a20: bool)
    requires n + k <= |bytes| && Within(FarRange(segment, offset, n, a20), |m|)
    requires Within(FarRange(segment, Advance(offset, n), k, a20), |m|)
    ensures Within(FarRange(segment, offset, n + k, a20), |m|)
    ensures Store(m, FarRange(segment, offset, n + k, a20), bytes[..n + k])
         == Store(Store(m, FarRange(segment, offset, n, a20), bytes[..n]),
                  FarRange(segment, Advance(offset, n), k, a20), bytes[n..n + k])
  {
    FarRangeSplit(segment, offset, n, k, a20);
    assert bytes[..n + k] == bytes[..n] + bytes[n..n + k];
    StoreAppend(m, FarRange(segment, offset, n, a20), bytes[..n],
                FarRange(segment, Advance(offset, n), k, a20), bytes[n..n + k]);
  }

  /** A far object of at most 64 KiB never names one byte of memory twice, with
      or without the A20 wrap. */
  lemma {:induction false} FarRangeInjective(segment: u16, offset: u16, count: nat, a20: bool)
    requires count <= OFFSET_WRAP
    ensures Injective(FarRange(segment, offset, count, a20))
  {
    var range := FarRange(segment, offset, count, a20);
    forall i, j | 0 <= i < j < count
      ensures range[i] != range[j]
    {
      var a, b := Advance(offset, i), Advance(offset, j);
      AdvanceWraps(offset, i);
      AdvanceWraps(offset, j);
      assert a != b;
    }
  }
}

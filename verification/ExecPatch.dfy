/** What a launch writes into guest memory through its journal. */
module ExecPatch {
  import opened GuestMemory
  import opened McbChain
  import opened McbBytes
  import opened MemoryArena
  import opened MemoryLease
  import opened ExecSeal
  import opened ExecState
  import opened ExecSlot

  /** Bytes for the guest, such as a stack word or an interrupt vector. */
  datatype Patch = Patch(segment: u16, offset: u16, bytes: seq<byte>)

  /** Guest memory after a patch. */
  function Written(m: Memory, patch: Patch, a20: bool): (after: Memory)
    ensures |after| == |m|
  {
    var range := FarRange(patch.segment, patch.offset, |patch.bytes|, a20);
    if Within(range, |m|) then Store(m, range, patch.bytes) else m
  }

  /** Guest memory after a list of patches, one after the other. */
  function AllWritten(m: Memory, patches: seq<Patch>, a20: bool): (after: Memory)
    ensures |after| == |m|
  {
    if patches == [] then m else Written(AllWritten(m, patches[..|patches| - 1], a20), patches[|patches| - 1], a20)
  }

  lemma {:induction false} NothingWritten(m: Memory, a20: bool)
    ensures AllWritten(m, [], a20) == m
  {
  }

  lemma {:induction false} AllWrittenMore(m: Memory, patches: seq<Patch>, patch: Patch, a20: bool)
    ensures AllWritten(m, patches + [patch], a20) == Written(AllWritten(m, patches, a20), patch, a20)
  {
    hide Written;
    assert (patches + [patch])[..|patches|] == patches;
  }

  /** A planned header is the present one with another owner and name. */
  ghost predicate PlanWrites(m: Memory, value: Rebind, guest: u16, owner: u16, name: seq<byte>) {
    && value.header == HeaderOf(guest) && HasRecord(|m|, value.header) && |name| <= 8
    && value.record == SetName(SetOwner(RecordAt(m, value.header), owner), name)
  }

  /** The headers that hand both blocks to the child, environment first. */
  function RebindPatches(rebinds: Rebinds): (patches: seq<Patch>)
    requires rebinds.Rebinds?
    ensures |patches| > 0
  {
    (if rebinds.environment.WithEnvironment? then
       [Patch(rebinds.environment.rebind.value.header, 0, rebinds.environment.rebind.value.record)] else [])
    + [Patch(rebinds.load.value.header, 0, rebinds.load.value.record)]
  }

  /** Patch `i` is the last one to reach an address, with its byte `j`. */
  ghost predicate Decides(patches: seq<Patch>, a20: bool, limit: nat, a: nat, i: int, j: int) {
    && 0 <= i < |patches| && Within(Reach(patches[i], a20), limit) && |patches[i].bytes| <= 0x1_0000
    && 0 <= j < |patches[i].bytes| && Reach(patches[i], a20)[j] == a
    && forall k :: i < k < |patches| ==> a !in Reach(patches[k], a20)
  }

  /** The last patch to reach a byte decides it, and the others stay. */
  lemma {:induction false} AllWrittenMeaning(m: Memory, patches: seq<Patch>, a20: bool, a: nat)
    requires a < |m|
    ensures (forall i :: 0 <= i < |patches| ==> a !in Reach(patches[i], a20)) ==> AllWritten(m, patches, a20)[a] == m[a]
    ensures forall i, j :: Decides(patches, a20, |m|, a, i, j) ==> AllWritten(m, patches, a20)[a] == patches[i].bytes[j]
    decreases |patches|
  {
    hide Written, Reach;
    if patches != [] {
      var n := |patches| - 1;
      var before, last := AllWritten(m, patches[..n], a20), patches[n];
      AllWrittenMeaning(m, patches[..n], a20, a);
      WrittenElsewhere(before, last, a20, a);
      forall i, j | Decides(patches, a20, |m|, a, i, j)
        ensures AllWritten(m, patches, a20)[a] == patches[i].bytes[j]
      {
        if i == n {
          WrittenHere(before, last, a20, j);
        } else {
          assert patches[..n][i] == patches[i];
          assert Decides(patches[..n], a20, |m|, a, i, j);
        }
      }
    }
  }

  /** The guest addresses a patch is for. */
  function Reach(patch: Patch, a20: bool): (range: Addresses) ensures |range| == |patch.bytes| {
    FarRange(patch.segment, patch.offset, |patch.bytes|, a20)
  }

  lemma {:induction false} WrittenElsewhere(m: Memory, patch: Patch, a20: bool, a: nat)
    requires a < |m|
    ensures a !in Reach(patch, a20) ==> Written(m, patch, a20)[a] == m[a]
  {
    hide Store;
    var range := Reach(patch, a20);
    if Within(range, |m|) { StoreFrame(m, range, patch.bytes); }
  }

  lemma {:induction false} WrittenHere(m: Memory, patch: Patch, a20: bool, j: nat)
    requires Within(Reach(patch, a20), |m|) && |patch.bytes| <= 0x1_0000 && j < |patch.bytes|
    ensures Reach(patch, a20)[j] < |m| && Written(m, patch, a20)[Reach(patch, a20)[j]] == patch.bytes[j]
  {
    hide Store;
    var range := Reach(patch, a20);
    FarRangeInjective(patch.segment, patch.offset, |patch.bytes|, a20);
    LoadAfterStore(m, range, patch.bytes);
    assert Load(Store(m, range, patch.bytes), range)[j] == patch.bytes[j];
  }

  /** Patches a journal with `count` records in use has room for: sixteen records
      of at most 64 bytes, each inside memory. */
  ghost predicate Stageable(patches: seq<Patch>, count: nat, limit: nat, a20: bool) {
    && count + |patches| <= 16
    && forall i :: 0 <= i < |patches| ==> 0 < |patches[i].bytes| <= 64 && Within(Reach(patches[i], a20), limit)
  }

  /** INT 22h: where the child's termination goes, from its PSP. */
  function TerminateVector(psp: PspImage): (patch: Patch) { Patch(0, 0x88, psp[0x0a..0x0e]) }

  // ---------- handing the blocks over ----------

  /** One byte of guest memory once a block has a new owner: the owner's word, low
      byte first, behind the header's first byte; the name from byte eight on. */
  function OwnedByte(m: Memory, a: nat, guest: u16, owner: u16, name: seq<byte>): (b: byte)
    requires a < |m|
  {
    var base := 16 * (if guest == 0 then 0xffff else guest - 1);
    if a == base + 1 then owner % 256
    else if a == base + 2 then owner / 256
    else if base + 8 <= a < base + 8 + |name| && a < base + 16 then name[a - base - 8]
    else m[a]
  }

  /** Guest memory once the load block, under its name, and the environment, if
      there is one, belong to the child. */
  function HandedOver(m: Memory, environment: Lease, target: Lease, name: seq<byte>): (after: Memory)
    requires target.Leased?
    ensures |after| == |m|
  {
    var m1 := if environment.NoLease? then m
              else seq(|m|, a requires 0 <= a < |m| => OwnedByte(m, a, environment.guest, target.guest, []));
    seq(|m1|, a requires 0 <= a < |m1| => OwnedByte(m1, a, target.guest, target.guest, name))
  }

  lemma {:induction false} RebindRecordByte(r: seq<byte>, owner: u16, name: seq<byte>, i: nat)
    requires |r| == RECORD_BYTES && |name| <= 8 && i < 16
    ensures SetName(SetOwner(r, owner), name)[i] ==
      if i == 1 then owner % 256 else if i == 2 then owner / 256 else if 8 <= i < 8 + |name| then name[i - 8] else r[i]
  {
  }

  /** Writing a planned header hands one block over. */
  lemma {:induction false} RebindWritten(m: Memory, value: Rebind, guest: u16, owner: u16, name: seq<byte>, a20: bool)
    requires PlanWrites(m, value, guest, owner, name)
    ensures Written(m, Patch(value.header, 0, value.record), a20)
         == seq(|m|, a requires 0 <= a < |m| => OwnedByte(m, a, guest, owner, name))
  {
    hide Put, RecordAt, SetName, SetOwner, Store, FarRange;
    RecordIsParagraph(value.header, a20);
    RecordRangeWithin(value.header, |m|);
    PutIsStore(m, value.header, value.record);
    var after := Written(m, Patch(value.header, 0, value.record), a20);
    assert after == Put(m, value.header, value.record);
    RecordBytes(m, value.header);
    forall a | 0 <= a < |m| ensures after[a] == OwnedByte(m, a, guest, owner, name) {
      PutByte(m, value.header, value.record, a);
      if 16 * value.header <= a < 16 * value.header + 16 {
        RebindRecordByte(RecordAt(m, value.header), owner, name, a - 16 * value.header);
      }
    }
  }

  /** Handing one block over leaves the other's plan good. */
  lemma {:induction false} PlanStays(m: Memory, m': Memory, value: Rebind, guest: u16, owner: u16, name: seq<byte>,
                                     other: u16, owner': u16)
    requires PlanWrites(m, value, guest, owner, name) && HeaderOf(other) != HeaderOf(guest)
    requires m' == seq(|m|, a requires 0 <= a < |m| => OwnedByte(m, a, other, owner', []))
    ensures PlanWrites(m', value, guest, owner, name)
  {
    hide RecordAt, SetName, SetOwner;
    RecordBytes(m, value.header);
    RecordBytes(m', value.header);
    var base := 16 * value.header;
    forall a | base <= a < base + 16 ensures m'[a] == m[a] {
    }
    assert m'[base..base + 16] == m[base..base + 16];
  }

  /** The staged headers hand exactly the two blocks to the child. */
  lemma {:induction false} RebindsHandOver(m: Memory, rebinds: Rebinds, environment: Lease, target: Lease, name: seq<byte>,
                                           a20: bool)
    requires rebinds.Rebinds? && target.Leased? && PlanWrites(m, rebinds.load.value, target.guest, target.guest, name)
    requires environment.Leased? <==> rebinds.environment.WithEnvironment?
    requires environment.Leased? ==>
      && environment.guest != target.guest
      && PlanWrites(m, rebinds.environment.rebind.value, environment.guest, target.guest, [])
    ensures AllWritten(m, RebindPatches(rebinds), a20) == HandedOver(m, environment, target, name)
  {
    hide PlanWrites, Written, OwnedByte;
    var load := Patch(rebinds.load.value.header, 0, rebinds.load.value.record);
    if environment.NoLease? {
      AllWrittenMore(m, [], load, a20);
      assert [] + [load] == RebindPatches(rebinds);
      RebindWritten(m, rebinds.load.value, target.guest, target.guest, name, a20);
    } else {
      var value := rebinds.environment.rebind.value;
      var first := Patch(value.header, 0, value.record);
      var m1 := Written(m, first, a20);
      AllWrittenMore(m, [], first, a20);
      AllWrittenMore(m, [first], load, a20);
      assert [] + [first] == [first] && [first] + [load] == RebindPatches(rebinds);
      RebindWritten(m, value, environment.guest, target.guest, [], a20);
      PlanStays(m, m1, rebinds.load.value, target.guest, target.guest, name, environment.guest, target.guest);
      RebindWritten(m1, rebinds.load.value, target.guest, target.guest, name, a20);
    }
  }

  lemma {:induction false} RebindsStageable(m: Memory, rebinds: Rebinds, environment: Lease, target: Lease, name: seq<byte>,
                                            count: nat, a20: bool)
    requires rebinds.Rebinds? && target.Leased? && PlanWrites(m, rebinds.load.value, target.guest, target.guest, name)
    requires environment.Leased? <==> rebinds.environment.WithEnvironment?
    requires environment.Leased? ==> PlanWrites(m, rebinds.environment.rebind.value, environment.guest, target.guest, [])
    ensures |RebindPatches(rebinds)| == if environment.Leased? then 2 else 1
    ensures count + |RebindPatches(rebinds)| <= 16 ==> Stageable(RebindPatches(rebinds), count, |m|, a20)
  {
    hide FarRange, RecordAt, SetName, SetOwner, Within, RecordRange;
    RecordIsParagraph(rebinds.load.value.header, a20);
    RecordRangeWithin(rebinds.load.value.header, |m|);
    if environment.Leased? {
      RecordIsParagraph(rebinds.environment.rebind.value.header, a20);
      RecordRangeWithin(rebinds.environment.rebind.value.header, |m|);
    }
  }
}

/** The image file behind a launch. */
module ImageFile {
  import opened GuestMemory

  datatype ReadStatus = ReadOk | ReadError | ShortRead

  /** A stable reader always answers from the same bytes; an unstable one answers
      with anything of the right length. */
  class ImageReader {
    const bytes: seq<byte>
    const stable: bool
    /** How often a read failed although the bytes were there. */
    ghost var failures: nat

    constructor (bytes: seq<byte>, stable: bool)
      ensures this.bytes == bytes && this.stable == stable && failures == 0
    {
      this.bytes, this.stable, failures := bytes, stable, 0;
    }

    method Read(offset: nat, count: nat) returns (status: ReadStatus, data: seq<byte>)
      modifies this`failures
      ensures failures >= old(failures)
      ensures status == ReadOk ==> |data| == count
      ensures status == ReadOk && stable ==> offset + count <= |bytes| && data == bytes[offset..offset + count]
      ensures stable && offset + count <= |bytes| ==> status == ReadOk || failures > old(failures)
    {
      data := [];
      if !stable {
        status := *;
        data := seq(count, i => 0);
        var other: seq<byte> := *;
        if |other| == count { data := other; }
        return;
      }
      var works: bool := *;
      if !works {
        failures := failures + 1;
        return ReadError, [];
      }
      if offset + count > |bytes| { return ShortRead, []; }
      return ReadOk, bytes[offset..offset + count];
    }
  }
}

/** Relocation of a loaded MZ image. */
module Relocator {
  import opened GuestMemory
  import opened GuestMachine
  import opened McbChain
  import opened ImageFile

  const ENTRY_BYTES := 4
  const BUFFER_ENTRIES := 16
  const OFFSET_WORD_MAXIMUM := 0xfffe
  const TABLE_OFFSET_MAXIMUM := 0xffff

  datatype RelocatorStatus =
    | RelocatorOk
    | BadFileRange
    | BadResidentRange
    | ImageError
    | BadTargetOffset
    | TargetOutsideResident
    | RelocatorFault
    | RelocatorPoisoned

  datatype Request = Request(table: nat, resident: nat, size: nat, count: nat, factor: u16)

  datatype Item = Item(offset: u16, segment: u16)

  function Decode(bytes: seq<byte>): (item: Item)
    requires |bytes| == ENTRY_BYTES
  {
    Item(Word(bytes[0], bytes[1]), Word(bytes[2], bytes[3]))
  }

  /** Entry `i` of the table in the file. */
  function ItemAt(file: seq<byte>, request: Request, i: nat): (item: Item)
    requires request.table + ENTRY_BYTES * i + ENTRY_BYTES <= |file|
  {
    Decode(file[request.table + ENTRY_BYTES * i..request.table + ENTRY_BYTES * i + ENTRY_BYTES])
  }

  function WrappingAdd(a: u16, b: u16): (sum: u16) { if a + b < 0x1_0000 then a + b else a + b - 0x1_0000 }

  function Target(item: Item, request: Request, a20: bool): (address: nat) {
    Linear(WrappingAdd(item.segment, request.factor), item.offset, a20)
  }

  /** The two bytes an entry names lie in the resident image. */
  predicate Good(item: Item, request: Request, a20: bool, limit: nat) {
    && item.offset <= OFFSET_WORD_MAXIMUM && request.resident <= Target(item, request, a20)
    && Target(item, request, a20) + 2 <= request.resident + request.size && Target(item, request, a20) + 2 <= limit
  }

  /** Add the factor to the word at an address, without carry. */
  function Adjusted(m: Memory, at: nat, factor: u16): (after: Memory)
    requires at + 2 <= |m|
    ensures |after| == |m|
  {
    var value := WrappingAdd(Word(m[at], m[at + 1]), factor);
    m[at := Lo(value)][at + 1 := Hi(value)]
  }

  /** The first `k` entries applied one after the other, in table order. */
  function Relocated(m: Memory, file: seq<byte>, request: Request, a20: bool, k: nat): (after: Memory)
    requires k == 0 || request.table + ENTRY_BYTES * k <= |file|
    requires forall i :: 0 <= i < k ==> Good(ItemAt(file, request, i), request, a20, |m|)
    ensures |after| == |m|
  {
    if k == 0 then m
    else assert Good(ItemAt(file, request, k - 1), request, a20, |m|);
         Adjusted(Relocated(m, file, request, a20, k - 1), Target(ItemAt(file, request, k - 1), request, a20), request.factor)
  }

  // ---------- the same, byte by byte ----------

  /** Two bytes of a file or of memory, the low one first. */
  function Pair(bytes: seq<byte>, at: nat): (word: nat)
    requires at + 2 <= |bytes|
  {
    bytes[at] as int + 256 * (bytes[at + 1] as int)
  }

  function Sum(a: nat, b: nat): (sum: int) { if a + b < 0x1_0000 then a + b else a + b - 0x1_0000 }

  /** The address an entry names: its second word and the factor make the
      segment, its first word is the offset. */
  function Named(file: seq<byte>, entry: nat, factor: u16, a20: bool): (address: int)
    requires entry + 4 <= |file|
  {
    var address := 16 * Sum(Pair(file, entry + 2), factor) + Pair(file, entry);
    if a20 || address < 0x10_0000 then address else address - 0x10_0000
  }

  lemma {:induction false} DecodeMeaning(file: seq<byte>, request: Request, i: nat, a20: bool)
    requires request.table + 4 * i + 4 <= |file|
    ensures var item, entry := ItemAt(file, request, i), request.table + 4 * i;
      && item.offset == Pair(file, entry) && item.segment == Pair(file, entry + 2)
      && Target(item, request, a20) == Named(file, entry, request.factor, a20)
  {
    hide Word;
    var entry := request.table + 4 * i;
    WordValue(file[entry], file[entry + 1]);
    WordValue(file[entry + 2], file[entry + 3]);
  }

  /** An entry is good exactly if its offset is not FFFFh and the word it names
      lies in the resident image and in memory. */
  lemma {:induction false} GoodMeaning(file: seq<byte>, request: Request, i: nat, a20: bool, limit: nat)
    requires request.table + 4 * i + 4 <= |file|
    ensures var entry := request.table + 4 * i;
      var at := Named(file, entry, request.factor, a20);
      Good(ItemAt(file, request, i), request, a20, limit) <==>
        && Pair(file, entry) != 0xffff && request.resident <= at && at + 2 <= request.resident + request.size
        && at + 2 <= limit
  {
    hide ItemAt, Named, Target;
    DecodeMeaning(file, request, i, a20);
  }

  /** One word in memory is larger by the factor, modulo 64 Ki; the rest stays. */
  ghost predicate WordAdded(before: Memory, after: Memory, at: int, factor: u16) {
    && |after| == |before| && 0 <= at && at + 2 <= |before|
    && Pair(after, at) == Sum(Pair(before, at), factor)
    && forall a :: 0 <= a < |before| && a != at && a != at + 1 ==> after[a] == before[a]
  }

  /** Relocation adds the factor at one named address after the other. */
  lemma {:induction false} RelocatedMeaning(m: Memory, file: seq<byte>, request: Request, a20: bool, k: nat)
    requires request.table + 4 * k + 4 <= |file|
    requires forall i :: 0 <= i < k + 1 ==> Good(ItemAt(file, request, i), request, a20, |m|)
    ensures Relocated(m, file, request, a20, 0) == m
    ensures WordAdded(Relocated(m, file, request, a20, k), Relocated(m, file, request, a20, k + 1),
      Named(file, request.table + 4 * k, request.factor, a20), request.factor)
  {
    hide Named, ItemAt, Target, Adjusted;
    assert Good(ItemAt(file, request, k), request, a20, |m|);
    DecodeMeaning(file, request, k, a20);
    AdjustedMeaning(Relocated(m, file, request, a20, k), Target(ItemAt(file, request, k), request, a20), request.factor);
  }

  lemma {:induction false} AdjustedMeaning(m: Memory, at: nat, factor: u16)
    requires at + 2 <= |m|
    ensures WordAdded(m, Adjusted(m, at, factor), at, factor)
  {
    hide Word, Lo, Hi, WrappingAdd;
    WordValue(m[at], m[at + 1]);
    var value := WrappingAdd(Word(m[at], m[at + 1]), factor);
    WordRoundTrip(value);
    WordValue(Lo(value), Hi(value));
    AddMeaning(Word(m[at], m[at + 1]), factor);
  }

  lemma {:induction false} AddMeaning(a: u16, b: u16)
    ensures WrappingAdd(a, b) == Sum(a, b)
  {
  }

  /** Nothing outside the resident image differs. */
  ghost predicate Inside(m0: Memory, m: Memory, request: Request) {
    && |m| == |m0|
    && forall a :: 0 <= a < |m| && !(request.resident <= a < request.resident + request.size) ==> m[a] == m0[a]
  }

  function ItemStatus(item: Item, request: Request, a20: bool, limit: nat): (status: RelocatorStatus)
    ensures status == RelocatorOk <==> Good(item, request, a20, limit)
    ensures status in {RelocatorOk, BadTargetOffset, TargetOutsideResident}
  {
    if item.offset > OFFSET_WORD_MAXIMUM then BadTargetOffset
    else var target := Target(item, request, a20);
         if target < request.resident || target + 2 > request.resident + request.size || target + 2 > limit
         then TargetOutsideResident else RelocatorOk
  }

  function RequestStatus(reader: ImageReader, limit: nat, request: Request): (status: RelocatorStatus)
    ensures status == RelocatorOk ==>
      && (request.count != 0 ==> request.table + ENTRY_BYTES * request.count <= |reader.bytes|)
      && request.resident + request.size <= limit
  {
    if request.table > TABLE_OFFSET_MAXIMUM then BadFileRange
    else if request.count != 0 && request.table + ENTRY_BYTES * request.count > |reader.bytes| then BadFileRange
    else if request.resident + request.size > limit || (request.count != 0 && request.size < 2) then BadResidentRange
    else RelocatorOk
  }

  /** A request is in order exactly if the table begins below 64 KiB and ends with
      the file, and the image lies in memory and holds a word if there is an entry;
      the file's fault is reported before the image's. */
  lemma {:induction false} RequestMeaning(reader: ImageReader, limit: nat, request: Request)
    ensures var status := RequestStatus(reader, limit, request);
      var table := request.table < 0x1_0000 && (request.count == 0 || request.table + 4 * request.count <= |reader.bytes|);
      var image := request.resident + request.size <= limit && (request.count == 0 || 2 <= request.size);
      status == if !table then BadFileRange else if !image then BadResidentRange else RelocatorOk
  {
  }

  lemma {:induction false} EntryOfBuffer(bytes: seq<byte>, cursor: nat, buffer: seq<byte>, from: nat, at: nat)
    requires cursor + |buffer| <= |bytes| && buffer == bytes[cursor..cursor + |buffer|]
    requires from + ENTRY_BYTES <= |buffer| && at == cursor + from
    ensures buffer[from..from + ENTRY_BYTES] == bytes[at..at + ENTRY_BYTES]
  {
  }

  /** Read the next buffer of whole entries. */
  method ReadEntries(reader: ImageReader, request: Request, done: nat) returns (status: RelocatorStatus, items: seq<Item>)
    requires done < request.count
    modifies reader`failures
    ensures reader.failures >= old(reader.failures) && status in {RelocatorOk, ImageError}
    ensures status == RelocatorOk ==> 0 < |items| && done + |items| <= request.count
    ensures status == RelocatorOk && reader.stable ==>
      && request.table + ENTRY_BYTES * (done + |items|) <= |reader.bytes|
      && forall i :: 0 <= i < |items| ==> items[i] == ItemAt(reader.bytes, request, done + i)
    ensures reader.stable && request.table + ENTRY_BYTES * request.count <= |reader.bytes| ==>
      status == RelocatorOk || reader.failures > old(reader.failures)
  {
    hide Decode;
    var entries := if request.count - done > BUFFER_ENTRIES then BUFFER_ENTRIES else request.count - done;
    var cursor := request.table + ENTRY_BYTES * done;
    var read, buffer := reader.Read(cursor, ENTRY_BYTES * entries);
    items := [];
    if read != ReadOk { return ImageError, items; }
    for index := 0 to entries
      invariant |items| == index && reader.failures >= old(reader.failures)
      invariant reader.stable ==> forall i :: 0 <= i < index ==> items[i] == ItemAt(reader.bytes, request, done + i)
    {
      ghost var at := cursor + ENTRY_BYTES * index;
      if reader.stable { EntryOfBuffer(reader.bytes, cursor, buffer, ENTRY_BYTES * index, at); }
      items := items + [Decode(buffer[ENTRY_BYTES * index..ENTRY_BYTES * index + ENTRY_BYTES])];
    }
    return RelocatorOk, items;
  }

  /** Look at every entry before the first byte is written. */
  method ValidateAll(reader: ImageReader, machine: Machine, request: Request) returns (status: RelocatorStatus)
    requires RequestStatus(reader, |machine.mem|, request) == RelocatorOk
    modifies reader`failures
    ensures reader.failures >= old(reader.failures)
    ensures status == RelocatorOk && reader.stable ==>
      forall i :: 0 <= i < request.count ==> Good(ItemAt(reader.bytes, request, i), request, machine.a20, |machine.mem|)
    ensures reader.stable && status != RelocatorOk ==>
      || reader.failures > old(reader.failures)
      || exists i :: 0 <= i < request.count && !Good(ItemAt(reader.bytes, request, i), request, machine.a20, |machine.mem|)
  {
    hide Good, ItemAt;
    var done: nat := 0;
    while done < request.count
      invariant done <= request.count && reader.failures >= old(reader.failures)
      invariant reader.stable ==>
        forall i :: 0 <= i < done ==> Good(ItemAt(reader.bytes, request, i), request, machine.a20, |machine.mem|)
    {
      var items;
      status, items := ReadEntries(reader, request, done);
      if status != RelocatorOk { return; }
      for index := 0 to |items|
        invariant forall i :: 0 <= i < index ==> Good(items[i], request, machine.a20, |machine.mem|)
      {
        status := ItemStatus(items[index], request, machine.a20, |machine.mem|);
        if status != RelocatorOk {
          assert reader.stable ==> items[index] == ItemAt(reader.bytes, request, done + index);
          return;
        }
      }
      assert reader.stable ==> forall i :: done <= i < done + |items| ==> ItemAt(reader.bytes, request, i) == items[i - done];
      done := done + |items|;
    }
    return RelocatorOk;
  }

  /** Add the factor to one word, transactionally. */
  method RelocateWord(machine: Machine, at: nat, factor: u16) returns (status: RelocatorStatus)
    requires machine.Valid() && at + 2 <= |machine.mem|
    modifies machine`mem, machine`faults
    ensures machine.Valid() && |machine.mem| == |old(machine.mem)| && machine.faults >= old(machine.faults)
    ensures status in {RelocatorOk, RelocatorFault, RelocatorPoisoned}
    ensures status == RelocatorOk ==>
      machine.mem == Adjusted(old(machine.mem), at, factor) && machine.faults == old(machine.faults)
    ensures status == RelocatorFault ==> machine.mem == old(machine.mem)
    ensures forall a :: 0 <= a < |machine.mem| && !(at <= a < at + 2) ==> machine.mem[a] == old(machine.mem)[a]
    ensures machine.faults == old(machine.faults) ==> status == RelocatorOk
  {
    hide Lo, Hi, Word, WrappingAdd;
    WordRange(machine.mem, at);
    var read, original := machine.Read(at, 2);
    if read != Ok { return RelocatorFault; }
    var value := WrappingAdd(Word(original[0], original[1]), factor);
    StoreWord(machine.mem, at, Lo(value), Hi(value));
    var written, rollback := machine.Replace(at, [Lo(value), Hi(value)]);
    if written == RollbackFailed { return RelocatorPoisoned; }
    return if written == Ok then RelocatorOk else RelocatorFault;
  }

  lemma {:induction false} WordRange(m: Memory, at: nat)
    requires at + 2 <= |m|
    ensures LinearRange(at, 2) == [at, at + 1] && Within(LinearRange(at, 2), |m|)
    ensures Load(m, LinearRange(at, 2)) == [m[at], m[at + 1]]
  {
  }

  lemma {:induction false} StoreWord(m: Memory, at: nat, low: byte, high: byte)
    requires at + 2 <= |m|
    ensures Store(m, LinearRange(at, 2), [low, high]) == m[at := low][at + 1 := high]
  {
    var range, bytes := LinearRange(at, 2), [low, high];
    assert range[..1] == [at] && bytes[..1] == [low] && range[1] == at + 1;
    assert Store(m, range[..1], bytes[..1]) == m[at := low] by {
      assert range[..1][..0] == [] && bytes[..1][..0] == [];
    }
  }

  /** Exactly the first `k` entries are applied. */
  ghost predicate Progress(m0: Memory, m: Memory, file: seq<byte>, request: Request, a20: bool, k: nat) {
    && (k == 0 || request.table + ENTRY_BYTES * k <= |file|)
    && (forall i :: 0 <= i < k ==> Good(ItemAt(file, request, i), request, a20, |m0|))
    && m == Relocated(m0, file, request, a20, k)
  }

  lemma {:induction false} ProgressStep(m0: Memory, m: Memory, file: seq<byte>, request: Request, a20: bool, k: nat, item: Item)
    requires Progress(m0, m, file, request, a20, k) && request.table + ENTRY_BYTES * (k + 1) <= |file|
    requires item == ItemAt(file, request, k) && Good(item, request, a20, |m0|)
    ensures |m| == |m0| && Target(item, request, a20) + 2 <= |m|
    ensures Progress(m0, Adjusted(m, Target(item, request, a20), request.factor), file, request, a20, k + 1)
  {
    hide Adjusted, ItemAt;
  }

  lemma {:induction false} InsideStep(m0: Memory, m: Memory, m': Memory, request: Request, item: Item, a20: bool)
    requires Inside(m0, m, request) && Good(item, request, a20, |m|) && |m'| == |m|
    requires forall a :: 0 <= a < |m| && !(Target(item, request, a20) <= a < Target(item, request, a20) + 2) ==> m'[a] == m[a]
    ensures Inside(m0, m', request)
  {
  }

  /** Apply the entries of one buffer, checking each again. */
  method ApplyItems(machine: Machine, request: Request, items: seq<Item>, ghost m0: Memory, ghost file: seq<byte>,
                    ghost done: nat, ghost stable: bool) returns (status: RelocatorStatus, ghost applied: nat)
    requires machine.Valid() && Inside(m0, machine.mem, request) && |machine.mem| == |m0|
    requires stable ==>
      && Progress(m0, machine.mem, file, request, machine.a20, done) && request.table + ENTRY_BYTES * (done + |items|) <= |file|
      && forall i :: 0 <= i < |items| ==> items[i] == ItemAt(file, request, done + i)
    modifies machine`mem, machine`faults
    ensures machine.Valid() && machine.faults >= old(machine.faults) && |machine.mem| == |m0|
    ensures Inside(m0, machine.mem, request) && done <= applied <= done + |items|
    ensures status == RelocatorOk ==> applied == done + |items| && machine.faults == old(machine.faults)
    ensures stable && status != RelocatorPoisoned ==> Progress(m0, machine.mem, file, request, machine.a20, applied)
    ensures status !in {RelocatorOk, RelocatorFault, RelocatorPoisoned} ==>
      exists i :: 0 <= i < |items| && !Good(items[i], request, machine.a20, |m0|)
    ensures machine.faults == old(machine.faults) ==> status != RelocatorFault && status != RelocatorPoisoned
  {
    hide Good, ItemAt, Adjusted, Inside, Target, Progress;
    applied := done;
    for index := 0 to |items|
      invariant machine.Valid() && |machine.mem| == |m0| && Inside(m0, machine.mem, request) && applied == done + index
      invariant machine.faults == old(machine.faults)
      invariant stable ==> Progress(m0, machine.mem, file, request, machine.a20, applied)
    {
      status := ItemStatus(items[index], request, machine.a20, |machine.mem|);
      if status != RelocatorOk { return; }
      GoodFits(items[index], request, machine.a20, |machine.mem|);
      ghost var m1 := machine.mem;
      if stable { ProgressStep(m0, m1, file, request, machine.a20, applied, items[index]); }
      status := RelocateWord(machine, Target(items[index], request, machine.a20), request.factor);
      InsideStep(m0, m1, machine.mem, request, items[index], machine.a20);
      if status != RelocatorOk { return; }
      applied := applied + 1;
    }
    return RelocatorOk, applied;
  }

  lemma {:induction false} GoodFits(item: Item, request: Request, a20: bool, limit: nat)
    requires Good(item, request, a20, limit)
    ensures Target(item, request, a20) + 2 <= limit
  {
  }

  /** Apply all entries in table order. */
  method ApplyAll(reader: ImageReader, machine: Machine, request: Request) returns (status: RelocatorStatus, ghost applied: nat)
    requires machine.Valid() && RequestStatus(reader, |machine.mem|, request) == RelocatorOk
    modifies reader`failures, machine`mem, machine`faults
    ensures machine.Valid() && |machine.mem| == |old(machine.mem)|
    ensures machine.faults >= old(machine.faults) && reader.failures >= old(reader.failures)
    ensures Inside(old(machine.mem), machine.mem, request) && applied <= request.count
    ensures status == RelocatorOk ==> applied == request.count
    ensures reader.stable && status != RelocatorPoisoned ==>
      Progress(old(machine.mem), machine.mem, reader.bytes, request, machine.a20, applied)
    ensures reader.stable && machine.faults == old(machine.faults) && reader.failures == old(reader.failures) ==>
      || status == RelocatorOk
      || exists i :: 0 <= i < request.count && !Good(ItemAt(reader.bytes, request, i), request, machine.a20, |machine.mem|)
  {
    hide Good, ItemAt, Inside, Progress;
    ghost var m0 := machine.mem;
    var done: nat := 0;
    applied := 0;
    NothingApplied(m0, reader.bytes, request, machine.a20);
    while done < request.count
      invariant done == applied <= request.count && machine.Valid() && |machine.mem| == |m0|
      invariant machine.faults == old(machine.faults) && reader.failures >= old(reader.failures)
      invariant Inside(m0, machine.mem, request)
      invariant reader.stable ==> Progress(m0, machine.mem, reader.bytes, request, machine.a20, done)
      decreases request.count - done
    {
      var items;
      status, items := ReadEntries(reader, request, done);
      if status != RelocatorOk { return; }
      status, applied := ApplyItems(machine, request, items, m0, reader.bytes, done, reader.stable);
      if status != RelocatorOk {
        assert reader.stable ==> forall i :: 0 <= i < |items| ==> items[i] == ItemAt(reader.bytes, request, done + i);
        return;
      }
      done := done + |items|;
    }
    return RelocatorOk, applied;
  }

  lemma {:induction false} NothingApplied(m: Memory, file: seq<byte>, request: Request, a20: bool)
    ensures Progress(m, m, file, request, a20, 0) && Inside(m, m, request)
  {
  }

  /** Relocate a resident image.  With a stable file the result is the fold of
      wrapping additions over the table; one bad entry anywhere means that no byte
      was written; and whatever the file does, only the resident image changes. */
  method Apply(reader: ImageReader, machine: Machine, request: Request) returns (status: RelocatorStatus, ghost applied: nat)
    requires machine.Valid()
    modifies reader`failures, machine`mem, machine`faults
    ensures machine.Valid() && |machine.mem| == |old(machine.mem)|
    ensures machine.faults >= old(machine.faults) && reader.failures >= old(reader.failures)
    ensures Inside(old(machine.mem), machine.mem, request) && applied <= request.count
    ensures status == RelocatorOk && reader.stable ==>
      Progress(old(machine.mem), machine.mem, reader.bytes, request, machine.a20, request.count)
    ensures reader.stable && status != RelocatorPoisoned ==>
      machine.mem == old(machine.mem) || Progress(old(machine.mem), machine.mem, reader.bytes, request, machine.a20, applied)
    ensures reader.stable && RequestStatus(reader, |machine.mem|, request) == RelocatorOk
            && (exists i :: 0 <= i < request.count
                            && !Good(ItemAt(reader.bytes, request, i), request, machine.a20, |machine.mem|)) ==>
      status != RelocatorOk && machine.mem == old(machine.mem)
    ensures RequestStatus(reader, |old(machine.mem)|, request) != RelocatorOk ==>
      status == RequestStatus(reader, |old(machine.mem)|, request) && machine.mem == old(machine.mem)
    ensures reader.stable && machine.faults == old(machine.faults) && reader.failures == old(reader.failures)
            && RequestStatus(reader, |machine.mem|, request) == RelocatorOk ==>
      || status == RelocatorOk
      || exists i :: 0 <= i < request.count && !Good(ItemAt(reader.bytes, request, i), request, machine.a20, |machine.mem|)
  {
    hide Good, ItemAt, Inside, Progress;
    applied := 0;
    NothingApplied(machine.mem, reader.bytes, request, machine.a20);
    status := RequestStatus(reader, |machine.mem|, request);
    if status != RelocatorOk { return; }
    status := ValidateAll(reader, machine, request);
    if status != RelocatorOk { return; }
    status, applied := ApplyAll(reader, machine, request);
  }
}

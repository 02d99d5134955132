/** Loading the resident part of an MZ or a COM image into its leased block. */
module MzLoad {
  import opened GuestMemory
  import opened GuestMachine
  import opened ImageFile

  const PARAGRAPH := 16
  const BIG_THRESHOLD := 0x1000
  const BIG_CHUNK := 0x0fe0
  const PAGE_BYTES := 512
  const BUFFER_BYTES := 256
  const PSP_PARAGRAPHS := 16
  const COM_OFFSET := 0x100

  datatype LoadStatus =
    | LoadOk
    | LoadBadLease
    | LoadStalePlan
    | LoadBadFileRange
    | LoadBadResidentRange
    | LoadImageError
    | LoadFault
    | LoadPoisoned

  /** The block the image is loaded into. */
  datatype LeaseView = LeaseView(guest: u16, paragraphs: u16) {
    /** The block lies below segment FFFFh and has room for a PSP. */
    predicate Usable() { guest + paragraphs <= 0xffff && paragraphs >= PSP_PARAGRAPHS }

    /** These bytes lie in the block. */
    predicate Covers(at: nat, count: nat) { PARAGRAPH * guest <= at && at + count <= PARAGRAPH * (guest + paragraphs) }
  }

  /** Where an MZ image lies in the file, and where it goes. */
  datatype MzPlan = MzPlan(fileOffset: nat, segment: u16, resident: nat, high: bool) {
    /** The image goes right behind the PSP, or to the end of the block. */
    predicate Placed(lease: LeaseView) {
      segment == if high then lease.guest + lease.paragraphs - resident else lease.guest + PSP_PARAGRAPHS
    }
  }

  /** Paragraphs of the next read: pieces of 0FE0h until the rest is small. */
  function ChunkParagraphs(remaining: nat): (paragraphs: nat)
    ensures paragraphs <= remaining && paragraphs < BIG_THRESHOLD
    ensures remaining > 0 ==> paragraphs > 0
    ensures paragraphs < remaining ==> remaining - paragraphs >= 0x20
  {
    if remaining >= BIG_THRESHOLD then BIG_CHUNK else remaining
  }

  function Min(a: nat, b: nat): (least: nat) { if a < b then a else b }

  /** Each read may fall short by less than a page.  Taken together that means:
      the whole image may fall short by less than a page, and then everything the
      file has is read. */
  method SourceFileBytes(available: nat, resident: nat) returns (status: LoadStatus, bytes: nat)
    ensures status == LoadOk || status == LoadBadFileRange
    ensures status == LoadOk <==> PARAGRAPH * resident - available < PAGE_BYTES
    ensures status == LoadOk ==> bytes == Min(available, PARAGRAPH * resident)
  {
    var left: nat, remaining: nat, completed: nat := available, resident, 0;
    while remaining != 0
      invariant remaining <= resident && completed + left == available
      invariant completed == Min(available, PARAGRAPH * (resident - remaining))
      invariant PARAGRAPH * (resident - remaining) - completed < PAGE_BYTES
      invariant 0 < remaining < resident ==> remaining >= 0x20
      decreases remaining
    {
      var paragraphs := ChunkParagraphs(remaining);
      var requested := PARAGRAPH * paragraphs;
      var count := if left < requested then left else requested;
      if requested - count >= PAGE_BYTES { return LoadBadFileRange, 0; }
      completed, left, remaining := completed + count, left - count, remaining - paragraphs;
    }
    return LoadOk, completed;
  }

  /** `n` file bytes from `from` on lie at `at` and nothing else differs. */
  ghost predicate Loaded(m0: Memory, m: Memory, at: nat, file: seq<byte>, from: nat, n: nat) {
    && (n == 0 || (at + n <= |m0| && from + n <= |file|))
    && m == if n == 0 then m0 else m0[..at] + file[from..from + n] + m0[at + n..]
  }

  lemma {:induction false} StoreIsSplice(m: Memory, at: nat, bytes: seq<byte>)
    requires at + |bytes| <= |m|
    ensures Within(LinearRange(at, |bytes|), |m|)
    ensures Store(m, LinearRange(at, |bytes|), bytes) == m[..at] + bytes + m[at + |bytes|..]
  {
    var range := LinearRange(at, |bytes|);
    StoreFrame(m, range, bytes);
    LoadAfterStore(m, range, bytes);
    var after := Store(m, range, bytes);
    forall a | 0 <= a < |m|
      ensures after[a] == (m[..at] + bytes + m[at + |bytes|..])[a]
    {
      InLinearRange(at, |bytes|, a);
      if at <= a < at + |bytes| { assert after[range[a - at]] == Load(after, range)[a - at]; }
    }
  }

  /** Below one megabyte, inside one segment, far addresses are consecutive. */
  lemma {:induction false} FarIsLinear(segment: u16, offset: u16, count: nat, a20: bool)
    requires offset + count <= OFFSET_WRAP && PARAGRAPH * segment + offset + count <= A20_WRAP
    ensures FarRange(segment, offset, count, a20) == LinearRange(PARAGRAPH * segment + offset, count)
  {
    var far, linear := FarRange(segment, offset, count, a20), LinearRange(PARAGRAPH * segment + offset, count);
    forall i | 0 <= i < count
      ensures far[i] == linear[i]
    {
      AdvanceWraps(offset, i);
    }
  }

  lemma {:induction false} LoadedMore(m0: Memory, m: Memory, at: nat, file: seq<byte>, from: nat, n: nat, k: nat)
    requires Loaded(m0, m, at, file, from, n) && from + n + k <= |file| && at + n + k <= |m0| && k > 0
    ensures |m| == |m0|
    ensures Loaded(m0, m[..at + n] + file[from + n..from + n + k] + m[at + n + k..], at, file, from, n + k)
  {
    assert file[from..from + n + k] == file[from..from + n] + file[from + n..from + n + k];
  }

  ghost predicate Confined(m0: Memory, m: Memory, at: nat, size: nat) {
    |m| == |m0| && forall a :: 0 <= a < |m| && !(at <= a < at + size) ==> m[a] == m0[a]
  }

  lemma {:induction false} ConfinedStep(m0: Memory, m: Memory, m': Memory, at: nat, size: nat, where: nat, n: nat)
    requires Confined(m0, m, at, size) && at <= where && where + n <= at + size && AgreeOutside(m, m', LinearRange(where, n))
    ensures Confined(m0, m', at, size)
  {
    forall a | 0 <= a < |m'| && !(at <= a < at + size)
      ensures m'[a] == m0[a]
    {
      InLinearRange(where, n, a);
    }
  }

  /** Copy file bytes to a segment in buffer-sized pieces. */
  method CopyExact(reader: ImageReader, machine: Machine, from: nat, segment: u16, count: nat, ghost m0: Memory, ghost at: nat,
                   ghost first: nat, ghost done: nat, ghost size: nat) returns (status: LoadStatus, ghost written: nat)
    requires machine.Valid() && |machine.mem| == |m0| && count <= OFFSET_WRAP && at + done == PARAGRAPH * segment
    requires at + done + count <= at + size <= A20_WRAP && at + size <= |m0| && from == first + done
    requires Confined(m0, machine.mem, at, size) && (reader.stable ==> Loaded(m0, machine.mem, at, reader.bytes, first, done))
    modifies reader`failures, machine`mem, machine`faults
    ensures machine.Valid() && |machine.mem| == |m0| && Confined(m0, machine.mem, at, size)
    ensures machine.faults >= old(machine.faults) && reader.failures >= old(reader.failures)
    ensures status in {LoadOk, LoadImageError, LoadFault, LoadPoisoned} && done <= written <= done + count
    ensures status == LoadOk ==> written == done + count && machine.faults == old(machine.faults)
    ensures reader.stable && status != LoadPoisoned ==> Loaded(m0, machine.mem, at, reader.bytes, first, written)
    ensures reader.stable && from + count <= |reader.bytes| ==>
      status == LoadOk || machine.faults > old(machine.faults) || reader.failures > old(reader.failures)
  {
    hide Loaded, Confined, FarRange, LinearRange, Store, AgreeOutside, Within, Load;
    var completed: nat := 0;
    written := done;
    while completed < count
      invariant completed <= count && written == done + completed && machine.Valid() && |machine.mem| == |m0|
      invariant Confined(m0, machine.mem, at, size) && machine.faults == old(machine.faults)
      invariant reader.failures >= old(reader.failures)
      invariant reader.stable ==> Loaded(m0, machine.mem, at, reader.bytes, first, written)
      decreases count - completed
    {
      var chunk := if count - completed < BUFFER_BYTES then count - completed else BUFFER_BYTES;
      var read, buffer := reader.Read(from + completed, chunk);
      if read != ReadOk { return LoadImageError, written; }
      ghost var m1, where := machine.mem, PARAGRAPH * segment + completed;
      FarIsLinear(segment, completed, chunk, machine.a20);
      StoreIsSplice(m1, where, buffer);
      if reader.stable { LoadedMore(m0, m1, at, reader.bytes, first, written, chunk); }
      var replaced, rollback := machine.ReplaceFar(segment, completed, buffer);
      ConfinedStep(m0, m1, machine.mem, at, size, where, chunk);
      if replaced == RollbackFailed { return LoadPoisoned, written; }
      if replaced != Ok { return LoadFault, written; }
      completed, written := completed + chunk, written + chunk;
    }
    return LoadOk, written;
  }

  /** The resident image fits guest memory below one megabyte. */
  predicate TargetFits(segment: nat, resident: nat, limit: nat) {
    segment + resident <= 0x1_0000 && (resident == 0 || PARAGRAPH * (segment + resident) <= limit)
  }

  lemma {:induction false} LinearFits(at: nat, count: nat, limit: nat)
    ensures Within(LinearRange(at, count), limit) <==> count == 0 || at + count <= limit
  {
    if count > 0 && at + count > limit { assert LinearRange(at, count)[count - 1] >= limit; }
  }

  /** Check the target piece by piece, as it will be written. */
  method PreflightTarget(machine: Machine, segment: u16, resident: nat) returns (ok: bool)
    requires machine.Valid()
    modifies machine`faults
    ensures machine.faults >= old(machine.faults)
    ensures ok ==> TargetFits(segment, resident, |machine.mem|) && machine.faults == old(machine.faults)
    ensures TargetFits(segment, resident, |machine.mem|) ==> ok || machine.faults > old(machine.faults)
  {
    hide FarRange, LinearRange, Within;
    var remaining: nat, current: nat := resident, segment;
    while remaining != 0
      invariant current + remaining == segment + resident && machine.faults == old(machine.faults)
      invariant segment < current <= 0x1_0000 ==> PARAGRAPH * current <= |machine.mem|
      decreases remaining
    {
      var paragraphs := ChunkParagraphs(remaining);
      if current > 0xffff { return false; }
      var valid := machine.ValidateFar(current, 0, PARAGRAPH * paragraphs);
      if current + paragraphs <= 0x1_0000 {
        FarIsLinear(current, 0, PARAGRAPH * paragraphs, machine.a20);
        LinearFits(PARAGRAPH * current, PARAGRAPH * paragraphs, |machine.mem|);
      }
      if valid != Ok { return false; }
      current, remaining := current + paragraphs, remaining - paragraphs;
    }
    ok := current <= 0x1_0000;
  }

  /** Load the resident image into its block: accepted exactly when the image lies
      in the block, where the plan says, and the file falls short by less than a
      page; then everything the file has of it lies at consecutive linear
      addresses and nothing else has changed. */
  method LoadMzResident(reader: ImageReader, machine: Machine, lease: LeaseView, plan: MzPlan)
    returns (status: LoadStatus, fileBytes: nat, ghost written: nat)
    requires machine.Valid()
    modifies reader`failures, machine`mem, machine`faults
    ensures machine.Valid() && machine.faults >= old(machine.faults) && reader.failures >= old(reader.failures)
    ensures Confined(old(machine.mem), machine.mem, PARAGRAPH * plan.segment, PARAGRAPH * plan.resident)
    ensures lease.Covers(PARAGRAPH * plan.segment, PARAGRAPH * plan.resident) || machine.mem == old(machine.mem)
    ensures status == LoadBadLease <==> !lease.Usable()
    ensures var inside := lease.guest <= plan.segment && plan.segment + plan.resident <= lease.guest + lease.paragraphs;
      && (lease.Usable() && !inside ==> status == LoadBadResidentRange)
      && (status == LoadStalePlan <==> lease.Usable() && inside && !plan.Placed(lease))
    ensures var available := BytesFrom(reader, plan.fileOffset);
      var short := PARAGRAPH * plan.resident - available >= PAGE_BYTES;
      && (status == LoadBadFileRange ==> short)
      && (Acceptable(lease, plan) && short ==> status == LoadBadFileRange)
      && (status == LoadOk ==> Acceptable(lease, plan) && !short && fileBytes == Min(available, PARAGRAPH * plan.resident))
      && (Acceptable(lease, plan) && !short && reader.stable && TargetFits(plan.segment, plan.resident, |machine.mem|) ==>
            status == LoadOk || machine.faults > old(machine.faults) || reader.failures > old(reader.failures))
    ensures status in {LoadBadLease, LoadStalePlan, LoadBadFileRange, LoadBadResidentRange} ==> machine.mem == old(machine.mem)
    ensures status == LoadOk ==> written == fileBytes
    ensures reader.stable && status != LoadPoisoned ==>
      Loaded(old(machine.mem), machine.mem, PARAGRAPH * plan.segment, reader.bytes, plan.fileOffset, written)
  {
    hide Loaded, Confined;
    written, fileBytes := 0, 0;
    NothingLoaded(machine.mem, PARAGRAPH * plan.segment, reader.bytes, plan.fileOffset, PARAGRAPH * plan.resident);
    if !lease.Usable() { return LoadBadLease, 0, 0; }
    if !lease.Covers(PARAGRAPH * plan.segment, PARAGRAPH * plan.resident) { return LoadBadResidentRange, 0, 0; }
    if !plan.Placed(lease) { return LoadStalePlan, 0, 0; }
    status, fileBytes := SourceFileBytes(BytesFrom(reader, plan.fileOffset), plan.resident);
    if status != LoadOk { return; }
    var fits := PreflightTarget(machine, plan.segment, plan.resident);
    if !fits { return LoadBadResidentRange, 0, 0; }
    status, written := CopyPieces(reader, machine, plan, fileBytes);
  }

  function BytesFrom(reader: ImageReader, from: nat): (bytes: nat) {
    if |reader.bytes| > from then |reader.bytes| - from else 0
  }

  /** The image may go where the plan puts it. */
  predicate Acceptable(lease: LeaseView, plan: MzPlan) {
    lease.Usable() && lease.Covers(PARAGRAPH * plan.segment, PARAGRAPH * plan.resident) && plan.Placed(lease)
  }

  /** The EXEC reads, one piece of the image after the other. */
  method CopyPieces(reader: ImageReader, machine: Machine, plan: MzPlan, fileBytes: nat)
    returns (status: LoadStatus, ghost written: nat)
    requires machine.Valid() && TargetFits(plan.segment, plan.resident, |machine.mem|)
    requires fileBytes == Min(BytesFrom(reader, plan.fileOffset), PARAGRAPH * plan.resident)
    modifies reader`failures, machine`mem, machine`faults
    ensures machine.Valid() && machine.faults >= old(machine.faults) && reader.failures >= old(reader.failures)
    ensures Confined(old(machine.mem), machine.mem, PARAGRAPH * plan.segment, PARAGRAPH * plan.resident)
    ensures status in {LoadOk, LoadImageError, LoadFault, LoadPoisoned} && (status == LoadOk ==> written == fileBytes)
    ensures reader.stable && status != LoadPoisoned ==>
      Loaded(old(machine.mem), machine.mem, PARAGRAPH * plan.segment, reader.bytes, plan.fileOffset, written)
    ensures reader.stable ==> status == LoadOk || machine.faults > old(machine.faults) || reader.failures > old(reader.failures)
  {
    hide Loaded, Confined;
    ghost var m0 := machine.mem;
    var segment, resident, fileOffset := plan.segment, plan.resident, plan.fileOffset;
    written := 0;
    NothingLoaded(m0, PARAGRAPH * segment, reader.bytes, fileOffset, PARAGRAPH * resident);
    var bytesLeft: nat, remaining: nat, current: nat, cursor := fileBytes, resident, segment, fileOffset;
    while remaining != 0 && bytesLeft != 0
      invariant current + remaining == segment + resident && bytesLeft + written == fileBytes && cursor == fileOffset + written
      invariant bytesLeft > 0 ==> written == PARAGRAPH * (current - segment)
      invariant bytesLeft <= PARAGRAPH * remaining && segment <= current
      invariant machine.Valid() && |machine.mem| == |m0| && Confined(m0, machine.mem, PARAGRAPH * segment, PARAGRAPH * resident)
      invariant machine.faults == old(machine.faults) && reader.failures >= old(reader.failures)
      invariant reader.stable ==> Loaded(m0, machine.mem, PARAGRAPH * segment, reader.bytes, fileOffset, written)
      decreases remaining
    {
      var paragraphs := ChunkParagraphs(remaining);
      var outer := PARAGRAPH * paragraphs;
      var bytes := if bytesLeft < outer then bytesLeft else outer;
      status, written := CopyExact(reader, machine, cursor, current, bytes, m0, PARAGRAPH * segment, fileOffset, written,
                                   PARAGRAPH * resident);
      if status != LoadOk { return; }
      cursor, bytesLeft := cursor + bytes, bytesLeft - bytes;
      remaining, current := remaining - paragraphs, current + paragraphs;
    }
    if bytesLeft != 0 { assert false; }
    return LoadOk, written;
  }

  /** How much of its block a COM program may fill. */
  function ComCapacity(lease: LeaseView): (bytes: int) {
    (if PARAGRAPH * lease.paragraphs >= OFFSET_WRAP then OFFSET_WRAP else PARAGRAPH * lease.paragraphs) - COM_OFFSET
  }

  /** Load a COM image behind the PSP: accepted exactly when the block is usable
      and the whole file is smaller than the room there; then the file lies there
      and nothing else has changed. */
  method LoadComResident(reader: ImageReader, machine: Machine, lease: LeaseView)
    returns (status: LoadStatus, ghost written: nat)
    requires machine.Valid()
    modifies reader`failures, machine`mem, machine`faults
    ensures machine.Valid() && machine.faults >= old(machine.faults) && reader.failures >= old(reader.failures)
    ensures Confined(old(machine.mem), machine.mem, PARAGRAPH * (lease.guest + PSP_PARAGRAPHS), ComRoom(lease))
    ensures status == LoadBadLease <==> !lease.Usable()
    ensures status == LoadOk ==> lease.Usable() && 0 < |reader.bytes| < ComCapacity(lease) && written == |reader.bytes|
    ensures status in {LoadBadLease, LoadStalePlan, LoadBadResidentRange} ==> machine.mem == old(machine.mem)
    ensures lease.Usable() && 0 < |reader.bytes| < ComCapacity(lease) && reader.stable
            && PARAGRAPH * (lease.guest + PSP_PARAGRAPHS) + ComCapacity(lease) <= |machine.mem| ==>
      status == LoadOk || machine.faults > old(machine.faults) || reader.failures > old(reader.failures)
    ensures reader.stable && status != LoadPoisoned ==>
      Loaded(old(machine.mem), machine.mem, PARAGRAPH * (lease.guest + PSP_PARAGRAPHS), reader.bytes, 0, written)
  {
    hide Loaded, Confined, FarRange, LinearRange, Within;
    written := 0;
    NothingLoaded(machine.mem, PARAGRAPH * (lease.guest + PSP_PARAGRAPHS), reader.bytes, 0, ComRoom(lease));
    if !lease.Usable() { return LoadBadLease, 0; }
    var capacity := ComCapacity(lease);
    if capacity <= 0 || |reader.bytes| >= capacity { return LoadBadResidentRange, 0; }
    if |reader.bytes| == 0 { return LoadStalePlan, 0; }
    var segment: u16 := lease.guest + PSP_PARAGRAPHS;
    FarIsLinear(segment, 0, capacity, machine.a20);
    LinearFits(PARAGRAPH * segment, capacity, |machine.mem|);
    var valid := machine.ValidateFar(segment, 0, capacity);
    if valid != Ok { return LoadBadResidentRange, 0; }
    status, written := CopyExact(reader, machine, 0, segment, |reader.bytes|, machine.mem, PARAGRAPH * segment, 0, 0, capacity);
  }

  /** The image of a program file, as far as loading it goes.  `entryFits` says
      that entry point and initial stack lie in the block. */
  datatype Image = ComImage | MzImage(fileOffset: nat, resident: nat, high: bool, entryFits: bool)

  /** The program can be laid out in the block. */
  predicate Plannable(image: Image, lease: LeaseView, fileBytes: nat) {
    lease.Usable() &&
    match image
    case ComImage => 0 < fileBytes < ComCapacity(lease)
    case MzImage(_, resident, _, entryFits) => entryFits && PSP_PARAGRAPHS + resident <= lease.paragraphs
  }

  /** Where a program that fits goes: the loader accepts exactly that place. */
  function PlanOf(image: Image, lease: LeaseView): (plan: MzPlan)
    requires image.MzImage? && Plannable(image, lease, 0)
    ensures Acceptable(lease, plan)
    ensures forall other: MzPlan :: Acceptable(lease, other) && other.resident == image.resident && other.high == image.high ==>
      other.segment == plan.segment
  {
    MzPlan(image.fileOffset, if image.high then lease.guest + lease.paragraphs - image.resident
           else lease.guest + PSP_PARAGRAPHS, image.resident, image.high)
  }

  /** The program can be laid out exactly if the block ends below segment FFFFh
      and holds a PSP, and behind it either the whole file of a COM program, with
      room to spare in the first 64 KiB, or the resident image of an MZ program
      whose entry fits. */
  lemma {:induction false} PlannableMeaning(image: Image, lease: LeaseView, fileBytes: nat)
    ensures Plannable(image, lease, fileBytes) <==>
      && lease.guest + lease.paragraphs <= 0xffff && 16 <= lease.paragraphs
      && match image
         case ComImage => 0 < fileBytes < 0xff00 && 256 + fileBytes < 16 * lease.paragraphs
         case MzImage(_, resident, _, fits) => fits && 16 + resident <= lease.paragraphs
  {
  }

  /** A plan stands exactly if a high image ends with its block and a low one
      begins right behind the PSP. */
  lemma {:induction false} PlacedMeaning(plan: MzPlan, lease: LeaseView)
    ensures plan.Placed(lease) <==>
      if plan.high then plan.segment + plan.resident == lease.guest + lease.paragraphs else plan.segment == lease.guest + 16
  {
  }

  function ComRoom(lease: LeaseView): (bytes: nat) {
    var capacity := ComCapacity(lease); if capacity < 0 then 0 else capacity
  }

  lemma {:induction false} NothingLoaded(m: Memory, at: nat, file: seq<byte>, from: nat, size: nat)
    ensures Confined(m, m, at, size) && Loaded(m, m, at, file, from, 0)
  {
  }

  /** What the file has of the image lies where the image goes. */
  ghost predicate ImageIn(m0: Memory, m: Memory, reader: ImageReader, view: LeaseView, image: Image)
    requires Plannable(image, view, |reader.bytes|)
  {
    var low, size := 16 * (view.guest + 16), |reader.bytes|;
    match image
    case ComImage => Loaded(m0, m, low, reader.bytes, 0, size)
    case MzImage(from, resident, high, _) =>
      var at := if high then 16 * (view.guest + view.paragraphs - resident) else low;
      Loaded(m0, m, at, reader.bytes, from,
             if size <= from then 0 else if size - from < 16 * resident then size - from else 16 * resident)
  }

  /** Load a program into its block: then the file's bytes lie there, and in any
      case nothing outside of the block has changed. */
  method LoadImage(reader: ImageReader, machine: Machine, lease: LeaseView, image: Image) returns (status: LoadStatus)
    requires machine.Valid() && Plannable(image, lease, |reader.bytes|)
    modifies reader`failures, machine`mem, machine`faults
    ensures machine.Valid() && machine.faults >= old(machine.faults)
    ensures Confined(old(machine.mem), machine.mem, PARAGRAPH * lease.guest, PARAGRAPH * lease.paragraphs)
    ensures status == LoadOk && reader.stable ==> ImageIn(old(machine.mem), machine.mem, reader, lease, image)
    ensures reader.failures >= old(reader.failures)
    ensures reader.stable && 16 * (lease.guest + lease.paragraphs) <= |machine.mem|
            && (image.MzImage? ==> 16 * image.resident < 512 + BytesFrom(reader, image.fileOffset)) ==>
      status == LoadOk || machine.faults > old(machine.faults) || reader.failures > old(reader.failures)
  {
    hide Loaded, Confined;
    ghost var m0 := machine.mem;
    ghost var written, fileBytes;
    if image.ComImage? {
      status, written := LoadComResident(reader, machine, lease);
      ConfinedWider(m0, machine.mem, PARAGRAPH * (lease.guest + PSP_PARAGRAPHS), ComRoom(lease), lease);
      return;
    }
    var plan := PlanOf(image, lease);
    status, fileBytes, written := LoadMzResident(reader, machine, lease, plan);
    ConfinedWider(m0, machine.mem, PARAGRAPH * plan.segment, PARAGRAPH * plan.resident, lease);
  }

  lemma {:induction false} ConfinedWider(m: Memory, m': Memory, at: nat, size: nat, lease: LeaseView)
    requires Confined(m, m', at, size) && lease.Covers(at, size)
    ensures Confined(m, m', PARAGRAPH * lease.guest, PARAGRAPH * lease.paragraphs)
  {
  }
}

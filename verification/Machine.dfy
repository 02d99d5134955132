/** The guest-machine boundary: bounded, chunked, transactional memory access. */
module GuestMachine {
  import opened GuestMemory

  datatype MachineStatus =
    | Ok
    | InvalidArgument
    | AddressFault
    | IoDenied
    | IoFault
    | RollbackFailed
    | Unsupported
    | Stopped

  /** Size of the next piece of a far transfer: it ends at the offset wrap, at
      the A20 wrap, or where the request ends. */
  function TransferChunk(segment: u16, offset: u16, remaining: nat, a20: bool): (chunk: nat)
    ensures chunk <= remaining
    ensures remaining > 0 ==> chunk > 0
  {
    var untilOffsetWrap := OFFSET_WRAP - offset;
    var chunk := if remaining < untilOffsetWrap then remaining else untilOffsetWrap;
    if a20 then chunk else
      var untilA20Wrap := A20_WRAP - Linear(segment, offset, a20);
      if untilA20Wrap < chunk then untilA20Wrap else chunk
  }

  lemma {:induction false} ChunkIsLinear(segment: u16, offset: u16, remaining: nat, a20: bool)
    ensures var chunk := TransferChunk(segment, offset, remaining, a20);
            LinearRange(Linear(segment, offset, a20), chunk) == FarRange(segment, offset, chunk, a20)
  {
  }

  /** The chunks of a transfer are linear, and laid end to end they are the
      byte-wise meaning of the whole transfer. */
  lemma {:induction false} ChunkStep(segment: u16, offset: u16, completed: nat, count: nat, a20: bool)
    requires completed < count
    ensures var current := Advance(offset, completed);
            var chunk := TransferChunk(segment, current, count - completed, a20);
            var piece := LinearRange(Linear(segment, current, a20), chunk);
            var whole := FarRange(segment, offset, count, a20);
            && Advance(current, chunk) == Advance(offset, completed + chunk)
            && FarRange(segment, offset, completed, a20) == whole[..completed]
            && FarRange(segment, offset, completed + chunk, a20) == whole[..completed + chunk]
            && piece == whole[completed..completed + chunk]
  {
    var current := Advance(offset, completed);
    var chunk := TransferChunk(segment, current, count - completed, a20);
    ChunkIsLinear(segment, current, count - completed, a20);
    AdvanceTwice(offset, completed, chunk);
    FarRangeSplit(segment, offset, completed, count - completed, a20);
    hide Linear, Advance, FarRange, FarAddress, TransferChunk, LinearRange;
  }

  /** What a status says: success means the access was quiet (no fault counted)
      and fits guest memory; a quiet failure is exactly an address fault. */
  ghost predicate Reported(status: MachineStatus, quiet: bool, fits: bool) {
    && (status == Ok ==> quiet && fits)
    && (quiet && status != Ok ==> status == AddressFault && !fits)
  }

  /** What one more piece adds to the bytes already stored. */
  lemma {:induction false} WritePiece(m0: Memory, range: Addresses, bytes: seq<byte>, i: nat, j: nat)
    requires i <= j <= |bytes| == |range| && Within(range, |m0|)
    ensures Store(m0, range[..j], bytes[..j]) == Store(Store(m0, range[..i], bytes[..i]), range[i..j], bytes[i..j])
  {
    hide Store, Within;
    WithinSlice(range, |m0|, i, j);
    StoreAppend(m0, range[..i], bytes[..i], range[i..j], bytes[i..j]);
    assert range[..i] + range[i..j] == range[..j] && bytes[..i] + bytes[i..j] == bytes[..j];
  }

  /** What a failure inside one more piece can have touched. */
  lemma {:induction false} TornPiece(m0: Memory, m': Memory, range: Addresses, bytes: seq<byte>, i: nat, j: nat)
    requires i <= j <= |bytes| == |range| && Within(range, |m0|)
    requires AgreeOutside(Store(m0, range[..i], bytes[..i]), m', range[i..j])
    ensures AgreeOutside(m0, m', range)
  {
    hide Store, Within;
    WithinSlice(range, |m0|, i, j);
    StoreFrame(m0, range[..i], bytes[..i]);
    forall a | 0 <= a < |m0| && a !in range
      ensures m0[a] == m'[a]
    {
      NotInSlice(range, a, 0, i);
      NotInSlice(range, a, i, j);
    }
  }

  lemma {:induction false} NotInSlice(range: Addresses, a: nat, i: nat, j: nat)
    requires i <= j <= |range| && a !in range
    ensures a !in range[i..j]
  {
  }

  lemma {:induction false} NothingMoved(m: Memory, segment: u16, offset: u16, bytes: seq<byte>, a20: bool)
    ensures Advance(offset, 0) == offset && Within(FarRange(segment, offset, 0, a20), |m|)
    ensures m == Store(m, FarRange(segment, offset, 0, a20), bytes[..0])
  {
  }

  /** The same for one chunk of a far write. */
  lemma {:induction false} WriteStep(m0: Memory, m: Memory, m': Memory, segment: u16, offset: u16, bytes: seq<byte>,
                                     completed: nat, a20: bool)
    requires completed < |bytes| && Within(FarRange(segment, offset, |bytes|, a20), |m0|)
    requires Within(FarRange(segment, offset, completed, a20), |m0|)
    requires m == Store(m0, FarRange(segment, offset, completed, a20), bytes[..completed])
    requires var current := Advance(offset, completed);
             var chunk := TransferChunk(segment, current, |bytes| - completed, a20);
             AgreeOutside(m, m', LinearRange(Linear(segment, current, a20), chunk))
    ensures var current := Advance(offset, completed);
            var chunk := TransferChunk(segment, current, |bytes| - completed, a20);
            var piece := LinearRange(Linear(segment, current, a20), chunk);
            && Advance(current, chunk) == Advance(offset, completed + chunk)
            && Within(piece, |m|)
            && Within(FarRange(segment, offset, completed + chunk, a20), |m0|)
            && Store(m0, FarRange(segment, offset, completed + chunk, a20), bytes[..completed + chunk])
               == Store(m, piece, bytes[completed..completed + chunk])
            && AgreeOutside(m0, m', FarRange(segment, offset, |bytes|, a20))
  {
    hide Linear, Advance, FarRange, FarAddress, TransferChunk, LinearRange, Store, AgreeOutside;
    ChunkStep(segment, offset, completed, |bytes|, a20);
    var chunk := TransferChunk(segment, Advance(offset, completed), |bytes| - completed, a20);
    WritePiece(m0, FarRange(segment, offset, |bytes|, a20), bytes, completed, completed + chunk);
    TornPiece(m0, m', FarRange(segment, offset, |bytes|, a20), bytes, completed, completed + chunk);
  }

  class Machine {
    const context: nat
    var mem: Memory
    var a20: bool
    var stopped: bool
    /** How often the machine has refused or failed an access that lies inside
        guest memory.  "No machine fault" means that this did not move.  A backend
        that itself claims a failed rollback counts twice, because otherwise only
        two failures make one. */
    ghost var faults: nat

    ghost predicate Valid() reads this {
      0 < |mem| <= GUEST_LIMIT
    }

    predicate RangeValid(at: nat, count: nat) reads this {
      at < |mem| && count <= |mem| - at
    }

    constructor (context: nat, mem: Memory, a20: bool)
      requires 0 < |mem| <= GUEST_LIMIT
      ensures Valid() && this.context == context && this.mem == mem && this.a20 == a20
      ensures !stopped && faults == 0
    {
      this.context, this.mem, this.a20 := context, mem, a20;
      this.stopped, this.faults := false, 0;
    }

    lemma {:induction false} EscapesMemory(at: nat, count: nat)
      requires count > 0 && !RangeValid(at, count)
      ensures !Within(LinearRange(at, count), |mem|)
    {
      var escape := if at < |mem| then |mem| - at else 0;
      assert LinearRange(at, count)[escape] >= |mem|;
    }

    lemma {:induction false} PieceOutOfBounds(range: Addresses, i: nat, j: nat)
      requires i <= j <= |range| && !Within(range[i..j], |mem|)
      ensures !Within(range, |mem|)
    {
      var k :| 0 <= k < j - i && range[i..j][k] >= |mem|;
      assert range[i + k] >= |mem|;
    }

    /** A backend failure code: any status but success, unknown codes being
        reported as an I/O fault. */
    method FailureCode() returns (status: MachineStatus)
      modifies this`faults
      ensures status != Ok && faults == old(faults) + if status == RollbackFailed then 2 else 1
    {
      status := *;
      if status == Ok { status := IoFault; }
      faults := faults + if status == RollbackFailed then 2 else 1;
    }

    /** The backend read callback. */
    method BackendRead(at: nat, count: nat) returns (status: MachineStatus, bytes: seq<byte>)
      requires RangeValid(at, count)
      modifies this`faults
      ensures status == Ok ==> faults == old(faults) && bytes == mem[at..at + count]
      ensures status != Ok ==> faults == old(faults) + if status == RollbackFailed then 2 else 1
    {
      status, bytes := Ok, mem[at..at + count];
      var fails: bool := *;
      if fails { status := FailureCode(); }
    }

    /** The backend write callback: all bytes arrive, or the call fails after
        leaving anything at all in its own range. */
    method BackendWrite(at: nat, bytes: seq<byte>) returns (status: MachineStatus)
      requires RangeValid(at, |bytes|)
      modifies this`mem, this`faults
      ensures |mem| == |old(mem)|
      ensures status == Ok ==> faults == old(faults) && mem == old(mem)[..at] + bytes + old(mem)[at + |bytes|..]
      ensures status != Ok ==> faults == old(faults) + if status == RollbackFailed then 2 else 1
      ensures forall a :: 0 <= a < |mem| && !(at <= a < at + |bytes|) ==> mem[a] == old(mem)[a]
    {
      var before := mem;
      status := Ok;
      mem := before[..at] + bytes + before[at + |bytes|..];
      var fails: bool := *;
      if fails {
        var left: seq<byte> := *;
        if |left| == |bytes| { mem := before[..at] + left + before[at + |bytes|..]; }
        status := FailureCode();
      }
    }

    method Read(at: nat, count: nat) returns (status: MachineStatus, bytes: seq<byte>)
      requires Valid()
      modifies this`faults
      ensures Reported(status, faults == old(faults), Within(LinearRange(at, count), |mem|))
      ensures status == Ok ==> bytes == Load(mem, LinearRange(at, count))
      ensures stopped ==> status == Stopped && faults == old(faults) + 1
      ensures faults >= old(faults) && (status == RollbackFailed ==> faults >= old(faults) + 2)
    {
      if stopped {
        faults := faults + 1;
        return Stopped, [];
      }
      if count == 0 { return Ok, []; }
      if !RangeValid(at, count) {
        EscapesMemory(at, count);
        return AddressFault, [];
      }
      status, bytes := BackendRead(at, count);
    }

    method Write(at: nat, bytes: seq<byte>) returns (status: MachineStatus)
      requires Valid()
      modifies this`mem, this`faults
      ensures Valid() && |mem| == |old(mem)|
      ensures Reported(status, faults == old(faults), Within(LinearRange(at, |bytes|), |mem|))
      ensures status == Ok ==> mem == Store(old(mem), LinearRange(at, |bytes|), bytes)
      ensures faults == old(faults) && status != Ok ==> mem == old(mem)
      ensures AgreeOutside(old(mem), mem, LinearRange(at, |bytes|))
      ensures faults >= old(faults) && (status == RollbackFailed ==> faults >= old(faults) + 2)
      ensures stopped ==> status == Stopped && faults == old(faults) + 1 && mem == old(mem)
    {
      if stopped {
        faults := faults + 1;
        return Stopped;
      }
      if |bytes| == 0 { return Ok; }
      if !RangeValid(at, |bytes|) {
        EscapesMemory(at, |bytes|);
        return AddressFault;
      }
      ghost var before := mem;
      ghost var range := LinearRange(at, |bytes|);
      status := BackendWrite(at, bytes);
      forall a | 0 <= a < |mem| && a !in range
        ensures mem[a] == before[a]
      {
        InLinearRange(at, |bytes|, a);
      }
      if status == Ok {
        assert Load(mem, range) == bytes;
        StoreRestores(mem, before, range);
      }
    }

    /** Replace a linear range, undoing a failed write. */
    method Replace(at: nat, bytes: seq<byte>) returns (status: MachineStatus, rollback: seq<byte>)
      requires Valid()
      modifies this`mem, this`faults
      ensures Valid() && |mem| == |old(mem)|
      ensures Reported(status, faults == old(faults), Within(LinearRange(at, |bytes|), |mem|))
      ensures status == Ok ==> rollback == Load(old(mem), LinearRange(at, |bytes|))
      ensures status == Ok ==> mem == Store(old(mem), LinearRange(at, |bytes|), bytes)
      ensures status != Ok && status != RollbackFailed ==> mem == old(mem)
      ensures AgreeOutside(old(mem), mem, LinearRange(at, |bytes|))
      ensures faults >= old(faults) && (status == RollbackFailed ==> faults >= old(faults) + 2)
      ensures |bytes| == 0 ==> status == Ok && faults == old(faults)
    {
      if |bytes| == 0 { return Ok, []; }
      status, rollback := Read(at, |bytes|);
      if status != Ok { return; }
      status := Write(at, bytes);
      if status == Ok { return; }
      ghost var torn := mem;
      var undone := Write(at, rollback);
      if undone != Ok { return RollbackFailed, rollback; }
      StoreRestores(old(mem), torn, LinearRange(at, |bytes|));
    }

    /** Check every chunk of a far transfer before the first byte moves. */
    method ValidateFar(segment: u16, offset: u16, count: nat) returns (status: MachineStatus)
      requires Valid()
      modifies this`faults
      ensures Reported(status, faults == old(faults), Within(FarRange(segment, offset, count, a20), |mem|))
      ensures faults == old(faults) + (if stopped then 1 else 0) && status in {Ok, AddressFault, Stopped}
      ensures status == Stopped <==> stopped
    {
      hide Linear, Advance, FarRange, FarAddress, TransferChunk, LinearRange;
      if stopped {
        faults := faults + 1;
        return Stopped;
      }
      var completed, current := 0, offset;
      ghost var whole := FarRange(segment, offset, count, a20);
      NothingMoved(mem, segment, offset, [], a20);
      while completed < count
        invariant completed <= count
        invariant current == Advance(offset, completed)
        invariant Within(whole[..completed], |mem|)
        invariant faults == old(faults)
      {
        var chunk := TransferChunk(segment, current, count - completed, a20);
        var linear := Linear(segment, current, a20);
        ChunkStep(segment, offset, completed, count, a20);
        ghost var piece := whole[completed..completed + chunk];
        if !RangeValid(linear, chunk) {
          EscapesMemory(linear, chunk);
          PieceOutOfBounds(whole, completed, completed + chunk);
          return AddressFault;
        }
        LinearRangeWithin(linear, chunk, |mem|);
        assert whole[..completed + chunk] == whole[..completed] + piece;
        completed := completed + chunk;
        current := Advance(current, chunk);
      }
      assert whole[..count] == whole;
      return Ok;
    }

    method ReadFar(segment: u16, offset: u16, count: nat) returns (status: MachineStatus, bytes: seq<byte>)
      requires Valid()
      modifies this`faults
      ensures Reported(status, faults == old(faults), Within(FarRange(segment, offset, count, a20), |mem|))
      ensures status == Ok ==> bytes == Load(mem, FarRange(segment, offset, count, a20))
      ensures faults >= old(faults) && (status == RollbackFailed ==> faults >= old(faults) + 2)
    {
      hide Linear, Advance, FarRange, FarAddress, TransferChunk, LinearRange;
      bytes := [];
      status := ValidateFar(segment, offset, count);
      if status != Ok { return; }
      var completed, current := 0, offset;
      ghost var whole := FarRange(segment, offset, count, a20);
      NothingMoved(mem, segment, offset, [], a20);
      while completed < count
        invariant completed <= count
        invariant current == Advance(offset, completed)
        invariant bytes == Load(mem, whole[..completed])
        invariant status == Ok && faults == old(faults)
      {
        var chunk := TransferChunk(segment, current, count - completed, a20);
        ChunkStep(segment, offset, completed, count, a20);
        WithinSlice(whole, |mem|, completed, completed + chunk);
        var piece;
        status, piece := Read(Linear(segment, current, a20), chunk);
        if status != Ok { return status, []; }
        bytes := bytes + piece;
        completed := completed + chunk;
        current := Advance(current, chunk);
      }
      assert whole[..count] == whole;
    }

    method WriteFar(segment: u16, offset: u16, bytes: seq<byte>) returns (status: MachineStatus)
      requires Valid()
      modifies this`mem, this`faults
      ensures Valid() && |mem| == |old(mem)|
      ensures Reported(status, faults == old(faults), Within(FarRange(segment, offset, |bytes|, a20), |mem|))
      ensures status == Ok ==> mem == Store(old(mem), FarRange(segment, offset, |bytes|, a20), bytes)
      ensures faults == old(faults) && status != Ok ==> mem == old(mem)
      ensures AgreeOutside(old(mem), mem, FarRange(segment, offset, |bytes|, a20))
      ensures faults >= old(faults) && (status == RollbackFailed ==> faults >= old(faults) + 2)
    {
      status := ValidateFar(segment, offset, |bytes|);
      if status != Ok { return; }
      status := WriteChunks(segment, offset, bytes);
    }

    /** The chunk loop of a far write, after validation. */
    method WriteChunks(segment: u16, offset: u16, bytes: seq<byte>) returns (status: MachineStatus)
      requires Valid() && Within(FarRange(segment, offset, |bytes|, a20), |mem|)
      modifies this`mem, this`faults
      ensures |mem| == |old(mem)|
      ensures status == Ok ==> faults == old(faults)
      ensures status == Ok ==> mem == Store(old(mem), FarRange(segment, offset, |bytes|, a20), bytes)
      ensures status != Ok ==> faults >= old(faults) + if status == RollbackFailed then 2 else 1
      ensures AgreeOutside(old(mem), mem, FarRange(segment, offset, |bytes|, a20))
    {
      hide Linear, Advance, FarRange, FarAddress, TransferChunk, LinearRange, Store, AgreeOutside, Within;
      var count, completed, current := |bytes|, 0, offset;
      NothingMoved(mem, segment, offset, bytes, a20);
      status := Ok;
      while completed < count
        invariant completed <= count
        invariant current == Advance(offset, completed)
        invariant |mem| == |old(mem)|
        invariant Within(FarRange(segment, offset, completed, a20), |old(mem)|)
        invariant mem == Store(old(mem), FarRange(segment, offset, completed, a20), bytes[..completed])
        invariant status == Ok && faults == old(faults)
      {
        var chunk := TransferChunk(segment, current, count - completed, a20);
        ghost var before := mem;
        status := Write(Linear(segment, current, a20), bytes[completed..completed + chunk]);
        WriteStep(old(mem), before, mem, segment, offset, bytes, completed, a20);
        if status != Ok { return; }
        completed := completed + chunk;
        current := Advance(current, chunk);
      }
      assert bytes[..count] == bytes;
      StoreFrame(old(mem), FarRange(segment, offset, count, a20), bytes);
    }

    /** Replace a far object, undoing a failed write: all or nothing unless the
        undo itself fails. */
    method ReplaceFar(segment: u16, offset: u16, bytes: seq<byte>)
      returns (status: MachineStatus, rollback: seq<byte>)
      requires Valid()
      modifies this`mem, this`faults
      ensures Valid() && |mem| == |old(mem)|
      ensures Reported(status, faults == old(faults), Within(FarRange(segment, offset, |bytes|, a20), |mem|))
      ensures status == Ok ==> rollback == Load(old(mem), FarRange(segment, offset, |bytes|, a20))
      ensures status == Ok ==> mem == Store(old(mem), FarRange(segment, offset, |bytes|, a20), bytes)
      ensures status != Ok && status != RollbackFailed ==> mem == old(mem)
      ensures AgreeOutside(old(mem), mem, FarRange(segment, offset, |bytes|, a20))
      ensures faults >= old(faults) && (status == RollbackFailed ==> faults >= old(faults) + 2)
      ensures |bytes| == 0 ==> status == Ok && faults == old(faults)
    {
      if |bytes| == 0 { return Ok, []; }
      status, rollback := ReadFar(segment, offset, |bytes|);
      if status != Ok { return; }
      status := WriteFar(segment, offset, bytes);
      if status == Ok { return; }
      ghost var torn := mem;
      var undone := WriteFar(segment, offset, rollback);
      if undone != Ok { return RollbackFailed, rollback; }
      StoreRestores(old(mem), torn, FarRange(segment, offset, |bytes|, a20));
    }
  }
}

/** LIFO undo log for guest writes made by one EXEC. */
module ExecJournal {
  import opened GuestMemory
  import opened GuestMachine

  const RECORD_CAPACITY := 16
  const RECORD_BYTES := 64

  datatype JournalState = Uninitialized | Staging | Sealed | Aborted | PoisonedState

  datatype JournalStatus =
    | JournalOk
    | JournalInvalidArgument
    | JournalInvalidState
    | IdentityMismatch
    | ContextMismatch
    | MachineMismatch
    | RecordTooLarge
    | JournalFull
    | JournalMachineFault
    | JournalPoisoned

  datatype Record = Record(segment: u16, offset: u16, saved: seq<byte>) {
    function Range(a20: bool): (range: Addresses) {
      FarRange(segment, offset, |saved|, a20)
    }
  }

  ghost predicate Fit(records: seq<Record>, limit: nat, a20: bool) {
    forall i :: 0 <= i < |records| ==> Within(records[i].Range(a20), limit)
  }

  ghost predicate WellFormed(records: seq<Record>) {
    && |records| <= RECORD_CAPACITY
    && forall i :: 0 <= i < |records| ==> 0 < |records[i].saved| <= RECORD_BYTES
  }

  /** Put back the saved bytes of all records but the `keep` oldest, the
      youngest first. */
  ghost function Undo(records: seq<Record>, keep: nat, m: Memory, a20: bool): (before: Memory)
    requires Fit(records, |m|, a20)
    ensures |before| == |m|
    decreases |records|
  {
    if |records| <= keep then m else
      var n := |records| - 1;
      Undo(records[..n], keep, Store(m, records[n].Range(a20), records[n].saved), a20)
  }

  /** Undoing in two stages, to `keep` and then to nothing, is undoing at once. */
  lemma {:induction false} UndoStages(records: seq<Record>, keep: nat, m: Memory, a20: bool)
    requires keep <= |records| && Fit(records, |m|, a20)
    ensures Fit(records[..keep], |m|, a20)
    ensures Undo(records, 0, m, a20) == Undo(records[..keep], 0, Undo(records, keep, m, a20), a20)
    decreases |records|
  {
    var n := |records| - 1;
    if keep > n {
      assert records[..keep] == records;
    } else {
      var m' := Store(m, records[n].Range(a20), records[n].saved);
      UndoStages(records[..n], keep, m', a20);
      assert records[..n][..keep] == records[..keep];
    }
  }

  /** Recording the bytes a write displaces makes the write invisible to `Undo`,
      whatever the earlier records overlap. */
  lemma {:induction false} UndoRecorded(records: seq<Record>, m: Memory, record: Record, bytes: seq<byte>, a20: bool)
    requires Fit(records, |m|, a20) && Within(record.Range(a20), |m|) && |bytes| == |record.saved|
    requires record.saved == Load(m, record.Range(a20))
    ensures var m' := Store(m, record.Range(a20), bytes);
            && Fit(records + [record], |m'|, a20)
            && forall keep: nat :: keep <= |records| ==>
                 Undo(records + [record], keep, m', a20) == Undo(records, keep, m, a20)
  {
    var range := record.Range(a20);
    var m' := Store(m, range, bytes);
    StoreFrame(m, range, bytes);
    StoreRestores(m, m', range);
    var all := records + [record];
    assert Fit(all, |m'|, a20);
    assert all[..|all| - 1] == records && all[|all| - 1] == record;
  }

  /** `records` is what is left of `all` part-way through undoing down to `keep`. */
  ghost predicate Undoing(all: seq<Record>, m0: Memory, keep: nat, records: seq<Record>, m: Memory, a20: bool) {
    && keep <= |records| <= |all| && records == all[..|records|]
    && |m| == |m0| && Fit(all, |m0|, a20) && Fit(records, |m|, a20)
    && Undo(records, keep, m, a20) == Undo(all, keep, m0, a20)
  }

  lemma {:induction false} UndoingStarts(all: seq<Record>, m0: Memory, keep: nat, a20: bool)
    requires keep <= |all| && Fit(all, |m0|, a20)
    ensures Undoing(all, m0, keep, all, m0, a20)
  {
    assert all[..|all|] == all;
  }

  lemma {:induction false} UndoingSteps(all: seq<Record>, m0: Memory, keep: nat, records: seq<Record>, m: Memory, a20: bool)
    requires Undoing(all, m0, keep, records, m, a20) && |records| > keep && WellFormed(records)
    ensures var n := |records| - 1;
            && Within(records[n].Range(a20), |m|)
            && WellFormed(records[..n]) && Fit(records[..n], |m|, a20)
            && Undoing(all, m0, keep, records[..n], Store(m, records[n].Range(a20), records[n].saved), a20)
  {
  }

  lemma {:induction false} UndoingEnds(all: seq<Record>, m0: Memory, keep: nat, records: seq<Record>, m: Memory, a20: bool)
    requires Undoing(all, m0, keep, records, m, a20) && |records| == keep
    ensures records == all[..keep] && m == Undo(all, keep, m0, a20)
    ensures Undo(records, 0, m, a20) == Undo(all, 0, m0, a20)
  {
    UndoStages(all, keep, m0, a20);
  }

  /** Records a span of this many bytes takes. */
  function RecordsNeeded(count: nat): (n: nat) {
    if count == 0 then 0 else if count <= RECORD_BYTES then 1 else 1 + RecordsNeeded(count - RECORD_BYTES)
  }

  lemma {:induction false} RecordsNeededRoundsUp(count: nat)
    ensures RecordsNeeded(count) == count / 64 + (if count % 64 != 0 then 1 else 0)
  {
    if count > RECORD_BYTES { RecordsNeededRoundsUp(count - RECORD_BYTES); }
  }

  /** Enough records are those that hold the bytes, 64 each. */
  lemma {:induction false} RecordsHold(count: nat, n: int)
    ensures RecordsNeeded(count) <= n <==> count <= 64 * n
    decreases count
  {
    if count > RECORD_BYTES { RecordsHold(count - RECORD_BYTES, n - 1); }
  }

  /** Bytes of the next record. */
  function RecordChunk(remaining: nat): (chunk: nat) {
    if remaining > RECORD_BYTES then RECORD_BYTES else remaining
  }

  /** `completed` bytes of a span are stored and recorded, and undoing down to
      the records the span found leads back to the memory it found. */
  ghost predicate Spanning(older: seq<Record>, m0: Memory, records: seq<Record>, m: Memory, segment: u16, offset: u16,
                           bytes: seq<byte>, completed: nat, a20: bool)
  {
    && |m| == |m0| && Fit(older, |m|, a20) && Fit(records, |m|, a20)
    && completed <= |bytes| && older <= records
    && |records| + RecordsNeeded(|bytes| - completed) == |older| + RecordsNeeded(|bytes|)
    && Within(FarRange(segment, offset, completed, a20), |m0|)
    && m == Store(m0, FarRange(segment, offset, completed, a20), bytes[..completed])
    && Undo(records, |older|, m, a20) == m0
    && Undo(records, 0, m, a20) == Undo(older, 0, m0, a20)
  }

  lemma {:induction false} SpanStarts(older: seq<Record>, m0: Memory, segment: u16, offset: u16, bytes: seq<byte>, a20: bool)
    requires Fit(older, |m0|, a20)
    ensures Spanning(older, m0, older, m0, segment, offset, bytes, 0, a20)
  {
  }

  lemma {:induction false} SpanSteps(older: seq<Record>, m0: Memory, records: seq<Record>, m: Memory, segment: u16, offset: u16,
                  bytes: seq<byte>, completed: nat, chunk: nat, a20: bool)
    requires Spanning(older, m0, records, m, segment, offset, bytes, completed, a20) && completed < |bytes|
    requires chunk == RecordChunk(|bytes| - completed)
    requires Within(FarRange(segment, Advance(offset, completed), chunk, a20), |m|)
    ensures var range := FarRange(segment, Advance(offset, completed), chunk, a20);
            var record := Record(segment, Advance(offset, completed), Load(m, range));
            Spanning(older, m0, records + [record], Store(m, range, bytes[completed..completed + chunk]),
                     segment, offset, bytes, completed + chunk, a20)
  {
    hide FarRange, Advance, Store, Load, Undo, Within, Fit;
    var range := FarRange(segment, Advance(offset, completed), chunk, a20);
    var record := Record(segment, Advance(offset, completed), Load(m, range));
    UndoRecorded(records, m, record, bytes[completed..completed + chunk], a20);
    FarStoreAppend(m0, segment, offset, bytes, completed, chunk, a20);
  }

  /** There is room for the next record, and its bytes exist if all do. */
  lemma {:induction false} SpanRoom(older: seq<Record>, m0: Memory, records: seq<Record>, m: Memory, segment: u16, offset: u16,
                 bytes: seq<byte>, completed: nat, a20: bool)
    requires Spanning(older, m0, records, m, segment, offset, bytes, completed, a20) && completed < |bytes|
    ensures |records| < |older| + RecordsNeeded(|bytes|)
    ensures var chunk := RecordChunk(|bytes| - completed);
            Within(FarRange(segment, offset, |bytes|, a20), |m0|) ==>
              Within(FarRange(segment, Advance(offset, completed), chunk, a20), |m0|)
  {
    if Within(FarRange(segment, offset, |bytes|, a20), |m0|) {
      var chunk := RecordChunk(|bytes| - completed);
      FarPieceWithin(|m0|, segment, offset, |bytes|, completed, chunk, a20);
    }
  }

  lemma {:induction false} SpanUndone(older: seq<Record>, m0: Memory, records: seq<Record>, m: Memory, segment: u16,
                                      offset: u16, bytes: seq<byte>, completed: nat, a20: bool)
    requires Spanning(older, m0, records, m, segment, offset, bytes, completed, a20)
    ensures |older| <= |records| && records[..|older|] == older
    ensures Fit(records, |m|, a20) && Undo(records, |older|, m, a20) == m0
  {
  }

  lemma {:induction false} SpanEnds(older: seq<Record>, m0: Memory, records: seq<Record>, m: Memory, segment: u16, offset: u16,
                 bytes: seq<byte>, a20: bool)
    requires Spanning(older, m0, records, m, segment, offset, bytes, |bytes|, a20)
    ensures Within(FarRange(segment, offset, |bytes|, a20), |m0|)
    ensures m == Store(m0, FarRange(segment, offset, |bytes|, a20), bytes)
    ensures |records| == |older| + RecordsNeeded(|bytes|)
    ensures Fit(older, |m0|, a20) && Fit(records, |m|, a20) && Undo(records, 0, m, a20) == Undo(older, 0, m0, a20)
  {
    assert bytes[..|bytes|] == bytes;
  }

  class Journal {
    var state: JournalState
    var identity: nat
    var context: nat
    var limit: nat
    var a20: bool
    var records: seq<Record>

    ghost predicate Valid() reads this {
      && WellFormed(records)
      && (state == Sealed || state == Aborted || state == Uninitialized ==> records == [])
    }

    /** The journal and the machine agree, and every record names guest memory. */
    ghost predicate Bound(machine: Machine) reads this, machine {
      && Valid() && machine.Valid()
      && machine.context == context && |machine.mem| == limit && machine.a20 == a20
      && Fit(records, |machine.mem|, a20)
    }

    /** What guest memory was before the first record. */
    ghost function Base(machine: Machine): Memory
      requires Bound(machine)
      reads this, machine
    {
      Undo(records, 0, machine.mem, a20)
    }

    constructor ()
      ensures Valid() && state == Uninitialized
    {
      state, records := Uninitialized, [];
      identity, context, limit, a20 := 0, 0, 0, false;
    }

    /** Ready for another machine, as when it was made. */
    method Construct()
      modifies this
      ensures Valid() && state == Uninitialized
    {
      state, records := Uninitialized, [];
      identity, context, limit, a20 := 0, 0, 0, false;
    }

    method Initialize(machineIdentity: nat, machine: Machine) returns (status: JournalStatus)
      requires Valid() && machine.Valid()
      modifies this
      ensures Valid()
      ensures old(state) == PoisonedState ==> status == JournalPoisoned
      ensures old(state) != PoisonedState ==> (status == JournalOk <==> old(state) == Uninitialized)
      ensures status == JournalOk ==> state == Staging && Bound(machine) && identity == machineIdentity && records == []
      ensures status == JournalOk ==> Base(machine) == machine.mem
      ensures status != JournalOk ==> unchanged(this)
    {
      if state == PoisonedState { return JournalPoisoned; }
      if state != Uninitialized { return JournalInvalidState; }
      identity, context, limit, a20 := machineIdentity, machine.context, |machine.mem|, machine.a20;
      state := Staging;
      return JournalOk;
    }

    function BindingStatus(machineIdentity: nat, machine: Machine): (status: JournalStatus)
      reads this, machine
      ensures status == JournalOk <==>
        && state != PoisonedState && state != Uninitialized && machineIdentity == identity && machine.context == context
        && |machine.mem| == limit && machine.a20 == a20
      ensures status == JournalPoisoned <==> state == PoisonedState
    {
      if state == PoisonedState then JournalPoisoned
      else if state == Uninitialized then JournalInvalidState
      else if machineIdentity != identity then IdentityMismatch
      else if machine.context != context then ContextMismatch
      else if |machine.mem| != limit || machine.a20 != a20 then MachineMismatch
      else JournalOk
    }

    /** Why a stage request is refused before the machine is touched. */
    function Refusal(machineIdentity: nat, machine: Machine, count: nat): (status: JournalStatus)
      reads this, machine
      ensures status == JournalOk <==>
        BindingStatus(machineIdentity, machine) == JournalOk && state == Staging && 0 < count <= 64 && |records| != 16
      ensures status == RecordTooLarge ==> 64 < count
      ensures status == JournalFull ==> 0 < count <= 64
    {
      var binding := BindingStatus(machineIdentity, machine);
      if binding != JournalOk then binding
      else if state != Staging then JournalInvalidState
      else if count == 0 then JournalInvalidArgument
      else if count > RECORD_BYTES then RecordTooLarge
      else if |records| == RECORD_CAPACITY then JournalFull
      else JournalOk
    }

    method StageReplaceFar(machineIdentity: nat, machine: Machine, segment: u16, offset: u16, bytes: seq<byte>)
      returns (status: JournalStatus)
      requires Bound(machine)
      modifies this`records, this`state, machine`mem, machine`faults
      ensures Bound(machine) && machine.faults >= old(machine.faults)
      ensures old(Refusal(machineIdentity, machine, |bytes|)) != JournalOk ==>
        status == old(Refusal(machineIdentity, machine, |bytes|)) && machine.faults == old(machine.faults)
      ensures status == JournalOk ==>
        && state == Staging && machine.faults == old(machine.faults)
        && Within(FarRange(segment, offset, |bytes|, a20), |old(machine.mem)|)
        && machine.mem == Store(old(machine.mem), FarRange(segment, offset, |bytes|, a20), bytes)
        && records == old(records) + [Record(segment, offset, Load(old(machine.mem), FarRange(segment, offset, |bytes|, a20)))]
        && Base(machine) == old(Base(machine))
      ensures status != JournalOk && state != PoisonedState ==>
        machine.mem == old(machine.mem) && records == old(records) && state == old(state)
      ensures status == JournalPoisoned <==> state == PoisonedState
      ensures status == JournalPoisoned ==> old(state) == PoisonedState || machine.faults >= old(machine.faults) + 2
      ensures machine.faults == old(machine.faults) && old(Refusal(machineIdentity, machine, |bytes|)) == JournalOk ==>
        status == (if Within(FarRange(segment, offset, |bytes|, a20), |machine.mem|) then JournalOk else JournalMachineFault)
    {
      hide FarRange, Store, Load, Undo, AgreeOutside;
      status := Refusal(machineIdentity, machine, |bytes|);
      if status != JournalOk { return; }
      ghost var before := machine.mem;
      var machineStatus, saved := machine.ReplaceFar(segment, offset, bytes);
      if machineStatus == RollbackFailed {
        state := PoisonedState;
        return JournalPoisoned;
      }
      if machineStatus == InvalidArgument { return JournalInvalidArgument; }
      if machineStatus != Ok { return JournalMachineFault; }
      var record := Record(segment, offset, saved);
      UndoRecorded(records, before, record, bytes, a20);
      records := records + [record];
    }

    /** Undo the youngest records until `target` of them are left. */
    method RestoreTo(machine: Machine, target: nat) returns (status: JournalStatus)
      requires Bound(machine) && state == Staging && target <= |records|
      modifies this`records, this`state, machine`mem, machine`faults
      ensures Bound(machine) && machine.faults >= old(machine.faults)
      ensures status == JournalOk || status == JournalPoisoned
      ensures machine.faults == old(machine.faults) ==> status == JournalOk
      ensures status == JournalOk ==>
        && state == Staging
        && records == old(records)[..target]
        && machine.mem == Undo(old(records), target, old(machine.mem), a20)
        && Base(machine) == old(Base(machine))
      ensures status == JournalPoisoned ==> state == PoisonedState
    {
      hide FarRange, Store, Load, AgreeOutside, Within, Undo, Undoing, WellFormed, Fit;
      ghost var all, m0 := records, machine.mem;
      UndoingStarts(all, m0, target, a20);
      while |records| > target
        invariant target <= |records| && WellFormed(records) && Fit(records, |machine.mem|, a20)
        invariant machine.Valid() && |machine.mem| == |m0| && state == Staging
        invariant Undoing(all, m0, target, records, machine.mem, a20)
        invariant machine.faults == old(machine.faults)
      {
        var n := |records| - 1;
        var record := records[n];
        UndoingSteps(all, m0, target, records, machine.mem, a20);
        var machineStatus, displaced := machine.ReplaceFar(record.segment, record.offset, record.saved);
        if machineStatus != Ok {
          state := PoisonedState;
          return JournalPoisoned;
        }
        records := records[..n];
      }
      UndoingEnds(all, m0, target, records, machine.mem, a20);
      return JournalOk;
    }

    /** Why a span request is refused before the machine is touched. */
    function SpanRefusal(machineIdentity: nat, machine: Machine, count: nat): (status: JournalStatus)
      reads this, machine
      ensures status == JournalOk <==>
        && BindingStatus(machineIdentity, machine) == JournalOk && state == Staging
        && 0 < count <= 64 * (16 - |records|)
    {
      RecordsHold(count, 16 - |records|);
      var binding := BindingStatus(machineIdentity, machine);
      if binding != JournalOk then binding
      else if state != Staging then JournalInvalidState
      else if count == 0 then JournalInvalidArgument
      else if RecordsNeeded(count) > RECORD_CAPACITY - |records| then JournalFull
      else JournalOk
    }

    /** Stage a write of any length as a run of records, or none of it. */
    method StageReplaceFarSpan(machineIdentity: nat, machine: Machine, segment: u16, offset: u16, bytes: seq<byte>)
      returns (status: JournalStatus)
      requires Bound(machine)
      modifies this`records, this`state, machine`mem, machine`faults
      ensures Bound(machine) && machine.faults >= old(machine.faults)
      ensures old(SpanRefusal(machineIdentity, machine, |bytes|)) != JournalOk ==>
        status == old(SpanRefusal(machineIdentity, machine, |bytes|)) && machine.faults == old(machine.faults)
      ensures status == JournalOk ==>
        && state == Staging && machine.faults == old(machine.faults)
        && Within(FarRange(segment, offset, |bytes|, a20), |old(machine.mem)|)
        && machine.mem == Store(old(machine.mem), FarRange(segment, offset, |bytes|, a20), bytes)
        && |records| == |old(records)| + RecordsNeeded(|bytes|)
        && Base(machine) == old(Base(machine))
      ensures status != JournalOk && state != PoisonedState ==>
        machine.mem == old(machine.mem) && records == old(records) && state == old(state)
      ensures status == JournalPoisoned <==> state == PoisonedState
      ensures status == JournalPoisoned && old(state) != PoisonedState ==>
        machine.faults >= old(machine.faults) + if Within(FarRange(segment, offset, |bytes|, a20), |machine.mem|) then 2 else 1
      ensures machine.faults == old(machine.faults) && old(SpanRefusal(machineIdentity, machine, |bytes|)) == JournalOk ==>
        status == (if Within(FarRange(segment, offset, |bytes|, a20), |machine.mem|) then JournalOk else JournalMachineFault)
    {
      status := SpanRefusal(machineIdentity, machine, |bytes|);
      if status != JournalOk { return; }
      status := StageSpanRecords(machineIdentity, machine, segment, offset, bytes);
    }

    method StageSpanRecords(machineIdentity: nat, machine: Machine, segment: u16, offset: u16, bytes: seq<byte>)
      returns (status: JournalStatus)
      requires Bound(machine) && SpanRefusal(machineIdentity, machine, |bytes|) == JournalOk
      modifies this`records, this`state, machine`mem, machine`faults
      ensures Bound(machine) && machine.faults >= old(machine.faults)
      ensures status == JournalOk ==>
        && state == Staging && machine.faults == old(machine.faults)
        && Within(FarRange(segment, offset, |bytes|, a20), |old(machine.mem)|)
        && machine.mem == Store(old(machine.mem), FarRange(segment, offset, |bytes|, a20), bytes)
        && |records| == |old(records)| + RecordsNeeded(|bytes|)
        && Base(machine) == old(Base(machine))
      ensures status != JournalOk && state != PoisonedState ==>
        machine.mem == old(machine.mem) && records == old(records) && state == Staging
      ensures status == JournalPoisoned <==> state == PoisonedState
      ensures status == JournalPoisoned && old(state) != PoisonedState ==>
        machine.faults >= old(machine.faults) + if Within(FarRange(segment, offset, |bytes|, a20), |machine.mem|) then 2 else 1
      ensures machine.faults == old(machine.faults) ==>
        status == (if Within(FarRange(segment, offset, |bytes|, a20), |machine.mem|) then JournalOk else JournalMachineFault)
    {
      hide FarRange, Advance, Store, Load, Undo, Within, Fit, WellFormed, AgreeOutside, RecordsNeeded, Spanning;
      ghost var older, m0 := records, machine.mem;
      var initial, completed := |records|, 0;
      SpanStarts(older, m0, segment, offset, bytes, a20);
      status := JournalOk;
      while completed < |bytes|
        invariant completed <= |bytes| && Bound(machine) && state == Staging && |machine.mem| == |m0|
        invariant Spanning(older, m0, records, machine.mem, segment, offset, bytes, completed, a20)
        invariant status == JournalOk && machine.faults == old(machine.faults)
      {
        var chunk := RecordChunk(|bytes| - completed);
        SpanRoom(older, m0, records, machine.mem, segment, offset, bytes, completed, a20);
        var at := Advance(offset, completed);
        ghost var before := machine.mem;
        ghost var earlier := records;
        status := StageReplaceFar(machineIdentity, machine, segment, at, bytes[completed..completed + chunk]);
        if status != JournalOk {
          if state == PoisonedState { return JournalPoisoned; }
          SpanUndone(older, m0, earlier, before, segment, offset, bytes, completed, a20);
          var restored := RestoreTo(machine, initial);
          if restored != JournalOk { return JournalPoisoned; }
          return;
        }
        SpanSteps(older, m0, earlier, before, segment, offset, bytes, completed, chunk, a20);
        completed := completed + chunk;
      }
      SpanEnds(older, m0, records, machine.mem, segment, offset, bytes, a20);
    }

    method Abort(machineIdentity: nat, machine: Machine) returns (status: JournalStatus)
      requires Bound(machine)
      modifies this`records, this`state, machine`mem, machine`faults
      ensures Valid() && machine.Valid() && |machine.mem| == |old(machine.mem)| && machine.faults >= old(machine.faults)
      ensures status == JournalOk ==>
        && old(state in {Staging, Aborted}) && state == Aborted && records == [] && Bound(machine)
        && machine.mem == old(Base(machine))
      ensures status != JournalOk && status != JournalPoisoned ==>
        unchanged(this) && machine.mem == old(machine.mem)
      ensures status == JournalPoisoned <==> state == PoisonedState
      ensures machine.faults == old(machine.faults) && old(PreflightSeal(machineIdentity, machine)) == JournalOk ==>
        status == JournalOk
    {
      status := BindingStatus(machineIdentity, machine);
      if status != JournalOk { return; }
      if state == Aborted { return; }
      if state != Staging { return JournalInvalidState; }
      status := RestoreTo(machine, 0);
      if status != JournalOk { return; }
      state := Aborted;
    }

    function PreflightSeal(machineIdentity: nat, machine: Machine): (status: JournalStatus)
      reads this, machine
      ensures status == JournalOk <==> BindingStatus(machineIdentity, machine) == JournalOk && state == Staging
      ensures status == JournalPoisoned <==> state == PoisonedState
    {
      var binding := BindingStatus(machineIdentity, machine);
      if binding != JournalOk then binding
      else if state == Staging then JournalOk else JournalInvalidState
    }

    method Seal(machineIdentity: nat, machine: Machine) returns (status: JournalStatus)
      requires Valid()
      modifies this`records, this`state
      ensures Valid()
      ensures status == JournalOk <==>
        old(BindingStatus(machineIdentity, machine)) == JournalOk && old(state) in {Staging, Sealed}
      ensures status == JournalOk ==> state == Sealed && records == []
      ensures status != JournalOk ==> unchanged(this)
    {
      status := BindingStatus(machineIdentity, machine);
      if status != JournalOk { return; }
      if state == Sealed { return; }
      if state != Staging { return JournalInvalidState; }
      records, state := [], Sealed;
    }

    method Poison()
      requires Valid()
      modifies this`state
      ensures Valid()
      ensures state == if old(state) in {Staging, Sealed} then PoisonedState else old(state)
    {
      if state == Staging || state == Sealed { state := PoisonedState; }
    }
  }
}

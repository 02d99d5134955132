/** Job file tables in guest memory: found through the PSP, read in pieces,
    changed one byte at a time. */
module JobFileTable {
  import opened GuestMemory
  import opened GuestMachine
  import opened SftCounts
  import opened SftRegistry
  import opened SftBatch
  import opened McbChain

  const CONTROL_OFFSET := 0x32
  const CONTROL_BYTES := 6
  const SCAN_BYTES := 64

  datatype JftControl = JftControl(length: u16, segment: u16, offset: u16)

  datatype HandleStatus = HandleOk | HandleInvalid | HandleFull | HandleFault | HandlePoisoned

  function ControlRange(psp: u16, a20: bool): (range: Addresses)
    ensures |range| == CONTROL_BYTES
  {
    FarRange(psp, CONTROL_OFFSET, CONTROL_BYTES, a20)
  }

  function DecodeControl(bytes: seq<byte>): (control: JftControl)
    requires |bytes| == CONTROL_BYTES
  {
    JftControl(Word(bytes[0], bytes[1]), Word(bytes[4], bytes[5]), Word(bytes[2], bytes[3]))
  }

  function ControlAt(m: Memory, psp: u16, a20: bool): (control: JftControl)
    requires Within(ControlRange(psp, a20), |m|)
  {
    DecodeControl(Load(m, ControlRange(psp, a20)))
  }

  function JftRange(control: JftControl, a20: bool): (range: Addresses)
    ensures |range| == control.length
  {
    FarRange(control.segment, control.offset, control.length, a20)
  }

  /** The PSP's control bytes and the table they point to are all in memory. */
  predicate Mapped(m: Memory, psp: u16, a20: bool) {
    Within(ControlRange(psp, a20), |m|) && Within(JftRange(ControlAt(m, psp, a20), a20), |m|)
  }

  function JftAt(m: Memory, psp: u16, a20: bool): (jft: seq<byte>)
    requires Mapped(m, psp, a20)
    ensures |jft| == ControlAt(m, psp, a20).length
  {
    Load(m, JftRange(ControlAt(m, psp, a20), a20))
  }

  predicate Disjoint(a: Addresses, b: Addresses) {
    forall x :: x in a ==> x !in b
  }

  /** A table is reached in pieces at the wrapped offsets. */
  lemma {:induction false} PieceOfJft(m: Memory, control: JftControl, a20: bool, start: nat, count: nat)
    requires Within(JftRange(control, a20), |m|) && start + count <= control.length
    ensures Within(FarRange(control.segment, Advance(control.offset, start), count, a20), |m|)
    ensures Load(m, FarRange(control.segment, Advance(control.offset, start), count, a20))
         == Load(m, JftRange(control, a20))[start..start + count]
  {
    hide FarRange, Advance;
    var range := JftRange(control, a20);
    FarRangeSplit(control.segment, control.offset, start, control.length - start, a20);
    FarRangeSplit(control.segment, Advance(control.offset, start), count, control.length - start - count, a20);
    var piece := FarRange(control.segment, Advance(control.offset, start), count, a20);
    assert piece == range[start..start + count];
  }

  lemma {:induction false} ByteOfJft(control: JftControl, a20: bool, i: nat)
    requires i < control.length
    ensures FarRange(control.segment, Advance(control.offset, i), 1, a20) == [JftRange(control, a20)[i]]
  {
    hide FarRange, Advance;
    var range := JftRange(control, a20);
    FarRangeSplit(control.segment, control.offset, i, control.length - i, a20);
    FarRangeSplit(control.segment, Advance(control.offset, i), 1, control.length - i - 1, a20);
  }

  method ReadJftControl(machine: Machine, psp: u16) returns (status: HandleStatus, control: JftControl)
    requires machine.Valid()
    modifies machine`faults
    ensures status == HandleOk || status == HandleFault
    ensures status == HandleOk ==>
      && Mapped(machine.mem, psp, machine.a20) && control == ControlAt(machine.mem, psp, machine.a20)
      && machine.faults == old(machine.faults)
    ensures Mapped(machine.mem, psp, machine.a20) && machine.faults == old(machine.faults) ==> status == HandleOk
    ensures machine.faults >= old(machine.faults)
  {
    hide FarRange, Load;
    control := JftControl(0, 0, 0);
    var read, bytes := machine.ReadFar(psp, CONTROL_OFFSET, CONTROL_BYTES);
    if read != Ok { return HandleFault, control; }
    var found := DecodeControl(bytes);
    read := machine.ValidateFar(found.segment, found.offset, found.length);
    if read != Ok { return HandleFault, control; }
    return HandleOk, found;
  }

  /** The lowest unused entry of a process's table. */
  method FindFreeJfn(machine: Machine, psp: u16) returns (status: HandleStatus, control: JftControl, jfn: u16)
    requires machine.Valid()
    modifies machine`faults
    ensures status in {HandleOk, HandleFull, HandleFault} && machine.faults >= old(machine.faults)
    ensures status != HandleFault ==>
      Mapped(machine.mem, psp, machine.a20) && control == ControlAt(machine.mem, psp, machine.a20)
    ensures status == HandleOk ==>
      var jft := JftAt(machine.mem, psp, machine.a20);
      jfn < |jft| && jft[jfn] == JFT_UNUSED && forall j :: 0 <= j < jfn ==> jft[j] != JFT_UNUSED
    ensures status == HandleFull ==> JFT_UNUSED !in JftAt(machine.mem, psp, machine.a20)
    ensures Mapped(machine.mem, psp, machine.a20) && machine.faults == old(machine.faults) ==> status != HandleFault
  {
    hide FarRange, Load, Advance;
    jfn := 0;
    status, control := ReadJftControl(machine, psp);
    if status != HandleOk { return; }
    ghost var jft := JftAt(machine.mem, psp, machine.a20);
    var completed := 0;
    while completed < control.length
      invariant completed <= control.length == |jft| && machine.faults == old(machine.faults)
      invariant forall j :: 0 <= j < completed ==> jft[j] != JFT_UNUSED
    {
      var remaining := control.length - completed;
      var amount := if remaining < SCAN_BYTES then remaining else SCAN_BYTES;
      PieceOfJft(machine.mem, control, machine.a20, completed, amount);
      var read, bytes := machine.ReadFar(control.segment, Advance(control.offset, completed), amount);
      if read != Ok { return HandleFault, control, 0; }
      for index := 0 to amount
        invariant forall j :: 0 <= j < completed + index ==> jft[j] != JFT_UNUSED
      {
        if bytes[index] == JFT_UNUSED { return HandleOk, control, completed + index; }
        assert bytes[index] == jft[completed + index];
      }
      completed := completed + amount;
    }
    return HandleFull, control, 0;
  }

  /** Change one entry, provided it still holds what the caller saw. */
  method ReplaceJftEntry(machine: Machine, control: JftControl, jfn: u16, expected: byte, replacement: byte)
    returns (status: HandleStatus)
    requires machine.Valid() && Within(JftRange(control, machine.a20), |machine.mem|)
    modifies machine`mem, machine`faults
    ensures machine.Valid() && |machine.mem| == |old(machine.mem)| && machine.faults >= old(machine.faults)
    ensures status in {HandleOk, HandleInvalid, HandleFault, HandlePoisoned}
    ensures status == HandleInvalid <==> jfn >= control.length
    ensures status == HandleOk ==>
      && machine.faults == old(machine.faults) && old(machine.mem)[JftRange(control, machine.a20)[jfn]] == expected
      && machine.mem == old(machine.mem)[JftRange(control, machine.a20)[jfn] := replacement]
    ensures status == HandleInvalid || status == HandleFault ==> machine.mem == old(machine.mem)
    ensures jfn < control.length && old(machine.mem)[JftRange(control, machine.a20)[jfn]] == expected ==>
      status == HandleOk || machine.faults > old(machine.faults)
  {
    hide FarRange, Advance, AgreeOutside;
    if jfn >= control.length { return HandleInvalid; }
    ByteOfJft(control, machine.a20, jfn);
    ghost var at := JftRange(control, machine.a20)[jfn];
    var offset := Advance(control.offset, jfn);
    var read, current := machine.ReadFar(control.segment, offset, 1);
    if read != Ok { return HandleFault; }
    if current[0] != expected { return HandleFault; }
    StoreByte(machine.mem, at, replacement);
    var written, rollback := machine.ReplaceFar(control.segment, offset, [replacement]);
    if written == RollbackFailed { return HandlePoisoned; }
    return if written == Ok then HandleOk else HandleFault;
  }

  lemma {:induction false} StoreByte(m: Memory, at: nat, b: byte)
    requires at < |m|
    ensures Store(m, [at], [b]) == m[at := b]
  {
    assert [at][..0] == [] && [b][..0] == [];
  }

  // ---------- closing a whole table ----------

  /** Part of the references on a list were given back; giving the rest back too
      ends where the whole list ends. */
  ghost predicate Draining(slots0: Slots, list0: seq<byte>, closings0: seq<byte>, slots: Slots, list: seq<byte>,
                           closings: seq<byte>)
  {
    && Covered(slots0, list0) && Covered(slots, list)
    && DropAll(slots, list) == DropAll(slots0, list0)
    && closings + Closings(slots, list) == closings0 + Closings(slots0, list0)
  }

  lemma {:induction false} DrainStarts(slots: Slots, list: seq<byte>, closings: seq<byte>)
    requires Covered(slots, list)
    ensures Draining(slots, list, closings, slots, list, closings)
  {
  }

  lemma {:induction false} DrainSteps(slots0: Slots, list0: seq<byte>, closings0: seq<byte>, slots: Slots, list: seq<byte>,
                                      closings: seq<byte>, sfn: byte)
    requires Draining(slots0, list0, closings0, slots, list + [sfn], closings)
    ensures Droppable(slots[sfn])
    ensures Draining(slots0, list0, closings0, Drop(slots, sfn), list,
                     closings + if slots[sfn].references == 1 then [sfn] else [])
  {
    hide Covered;
    var whole := list + [sfn];
    assert whole[..|whole| - 1] == list;
    CoveredStep(slots, whole);
    var first, after := if slots[sfn].references == 1 then [sfn] else [], Drop(slots, sfn);
    assert closings + (first + Closings(after, list)) == (closings + first) + Closings(after, list);
  }

  lemma {:induction false} DrainEnds(slots0: Slots, list0: seq<byte>, closings0: seq<byte>, slots: Slots, closings: seq<byte>)
    requires Draining(slots0, list0, closings0, slots, [], closings)
    ensures Covered(slots0, list0) && slots == DropAll(slots0, list0) && closings == closings0 + Closings(slots0, list0)
  {
    assert closings + [] == closings;
  }

  datatype CloseStatus = HandlesClosed | CloseMachineFault | ClosePoisoned

  /** Release the reference of one entry, then its device. */
  method CloseEntry(registry: Registry, context: nat, sfn: byte, ghost good: bool) returns (failed: bool, released: bool)
    requires registry.Valid() && sfn != JFT_UNUSED
    requires good ==> Droppable(registry.slots[sfn]) && context == registry.context
    modifies registry`slots, registry`closed, registry`closings, registry`failures
    ensures registry.Valid() && registry.failures >= old(registry.failures)
    ensures good && !failed ==>
      && registry.slots == Drop(old(registry.slots), sfn) && registry.failures == old(registry.failures)
      && registry.closings == old(registry.closings) + (if old(registry.slots)[sfn].references == 1 then [sfn] else [])
    ensures good ==> !failed || registry.failures > old(registry.failures)
    ensures !failed && !released ==> registry.slots == old(registry.slots) && registry.closings == old(registry.closings)
    ensures context == registry.context && old(registry.slots)[sfn].state != PoisonedSlot ==>
      (!failed && !released <==> !old(registry.slots)[sfn].Live())
  {
    hide Lifetimes, MakeReference;
    failed, released := false, false;
    var found, view := registry.Lookup(context, sfn).0, registry.Lookup(context, sfn).1;
    if found == InvalidSft { return; }
    if found != AdapterOk { return true, false; }
    assert registry.Names(context, view.reference, sfn);
    var status := registry.ReferenceRelease(context, view.reference);
    if status != AdapterOk { return true, false; }
    released := true;
    if view.flags & NETWORK == 0 {
      assert registry.Names(context, view.reference, sfn);
      status := registry.DeviceClose(context, view.reference);
      failed := status != AdapterOk;
    }
    assert good && !failed ==> registry.slots == Drop(old(registry.slots), sfn);
  }

  /** Close the entries of one piece of a table, from the last to the first. */
  method CloseChunk(registry: Registry, context: nat, chunk: seq<byte>, ghost good: bool, ghost before: seq<byte>,
                    ghost slots0: Slots, ghost list0: seq<byte>, ghost closings0: seq<byte>)
    returns (failed: bool, released: bool)
    requires registry.Valid()
    requires good ==>
      context == registry.context
      && Draining(slots0, list0, closings0, registry.slots, Used(before + chunk), registry.closings)
    modifies registry`slots, registry`closed, registry`closings, registry`failures
    ensures registry.Valid() && registry.failures >= old(registry.failures)
    ensures good && !failed ==>
      && Draining(slots0, list0, closings0, registry.slots, Used(before), registry.closings)
      && registry.failures == old(registry.failures)
    ensures good ==> !failed || registry.failures > old(registry.failures)
    ensures !failed && !released ==> registry.slots == old(registry.slots) && registry.closings == old(registry.closings)
  {
    hide Lifetimes, Draining, Used, Drop;
    failed, released := false, false;
    var index := |chunk|;
    assert before + chunk[..index] == before + chunk;
    while index != 0
      invariant 0 <= index <= |chunk| && registry.Valid() && registry.failures >= old(registry.failures)
      invariant good && !failed ==>
        && Draining(slots0, list0, closings0, registry.slots, Used(before + chunk[..index]), registry.closings)
        && registry.failures == old(registry.failures)
      invariant good ==> !failed || registry.failures > old(registry.failures)
      invariant !failed && !released ==> registry.slots == old(registry.slots) && registry.closings == old(registry.closings)
      decreases index
    {
      index := index - 1;
      var sfn := chunk[index];
      UsedLast(before, chunk, index);
      if sfn != JFT_UNUSED {
        ghost var sound := good && !failed;
        if sound {
          DrainSteps(slots0, list0, closings0, registry.slots, Used(before + chunk[..index]), registry.closings, sfn);
        }
        var bad, gone := CloseEntry(registry, context, sfn, sound);
        failed, released := failed || bad, released || gone;
      }
    }
    assert before + chunk[..0] == before;
  }

  lemma {:induction false} UsedLast(before: seq<byte>, chunk: seq<byte>, index: nat)
    requires index < |chunk|
    ensures Used(before + chunk[..index + 1]) ==
      if chunk[index] == JFT_UNUSED then Used(before + chunk[..index]) else Used(before + chunk[..index]) + [chunk[index]]
  {
    var whole := before + chunk[..index + 1];
    assert whole[..|whole| - 1] == before + chunk[..index];
  }

  /** Give back every reference of a dying process, in reverse table order. */
  method CloseHandles(machine: Machine, registry: Registry, context: nat, control: JftControl, ghost good: bool)
    returns (status: CloseStatus)
    requires machine.Valid() && registry.Valid() && Within(JftRange(control, machine.a20), |machine.mem|)
    requires good ==>
      Covered(registry.slots, Used(Load(machine.mem, JftRange(control, machine.a20)))) && context == registry.context
    modifies machine`faults, registry`slots, registry`closed, registry`closings, registry`failures
    ensures registry.Valid() && machine.faults >= old(machine.faults) && registry.failures >= old(registry.failures)
    ensures good && status == HandlesClosed ==>
      var list := Used(Load(machine.mem, JftRange(control, machine.a20)));
      && registry.slots == DropAll(old(registry.slots), list) && registry.failures == old(registry.failures)
      && registry.closings == old(registry.closings) + Closings(old(registry.slots), list)
    ensures status == CloseMachineFault ==>
      registry.slots == old(registry.slots) && registry.closings == old(registry.closings)
    ensures good && machine.faults == old(machine.faults) && registry.failures == old(registry.failures) ==>
      status == HandlesClosed
  {
    hide Lifetimes, Draining, Used, FarRange, Load, Advance, Covered, DropAll, Closings, JftRange;
    var failed, irreversible := false, false;
    ghost var jft := Load(machine.mem, JftRange(control, machine.a20));
    ghost var slots0, closings0 := registry.slots, registry.closings;
    var remaining: nat := control.length;
    assert jft[..remaining] == jft;
    if good { DrainStarts(slots0, Used(jft), closings0); }
    while remaining != 0
      invariant remaining <= control.length && registry.Valid() && machine.faults == old(machine.faults)
      invariant registry.failures >= old(registry.failures)
      invariant good && !failed ==>
        && Draining(slots0, Used(jft), closings0, registry.slots, Used(jft[..remaining]), registry.closings)
        && registry.failures == old(registry.failures)
      invariant good ==> !failed || registry.failures > old(registry.failures)
      invariant !failed && !irreversible ==> registry.slots == slots0 && registry.closings == closings0
      decreases remaining
    {
      var count := if remaining < SCAN_BYTES then remaining else SCAN_BYTES;
      var start := remaining - count;
      PieceOfControl(machine.mem, control, machine.a20, start, count);
      var read, chunk := machine.ReadFar(control.segment, Advance(control.offset, start), count);
      if read != Ok { return if failed || irreversible then ClosePoisoned else CloseMachineFault; }
      assert jft[..start] + chunk == jft[..remaining];
      var bad, gone := CloseChunk(registry, context, chunk, good && !failed, jft[..start], slots0, Used(jft), closings0);
      failed, irreversible := failed || bad, irreversible || gone;
      remaining := start;
    }
    assert jft[..0] == [];
    if good && !failed { DrainDone(slots0, Used(jft), closings0, registry.slots, registry.closings); }
    return if failed then ClosePoisoned else HandlesClosed;
  }

  lemma {:induction false} PieceOfControl(m: Memory, control: JftControl, a20: bool, start: nat, count: nat)
    requires Within(JftRange(control, a20), |m|) && start + count <= control.length
    ensures Within(FarRange(control.segment, Advance(control.offset, start), count, a20), |m|)
    ensures |Load(m, JftRange(control, a20))| == control.length
    ensures Load(m, FarRange(control.segment, Advance(control.offset, start), count, a20))
         == Load(m, JftRange(control, a20))[start..start + count]
  {
    hide Load, FarRange, Advance, Within;
    PieceOfJft(m, control, a20, start, count);
  }

  lemma {:induction false} DrainDone(slots0: Slots, list0: seq<byte>, closings0: seq<byte>, slots: Slots, closings: seq<byte>)
    requires Draining(slots0, list0, closings0, slots, Used([]), closings)
    ensures Covered(slots0, list0) && slots == DropAll(slots0, list0) && closings == closings0 + Closings(slots0, list0)
  {
    hide Draining;
    DrainEnds(slots0, list0, closings0, slots, closings);
  }
}

/** Open, close, EXEC inheritance and termination over one registry: the books
    balance after every call of every run. */
module FileWorld {
  import opened GuestMemory
  import opened GuestMachine
  import opened SftCounts
  import opened SftRegistry
  import opened SftBatch
  import opened JobFileTable
  import opened FileTally
  import opened FileLink

  datatype Reservation = Reservation(control: JftControl, reference: nat, jfn: u16, sfn: byte)

  datatype CallStatus = Handled | DosError | CallFault | CallPoisoned

  /** One call into the file layer by a live process or by EXEC. */
  datatype Call =
    | Open(process: nat, record: PublishRecord, backendOpens: bool)
    | Close(process: nat, jfn: u16)
    | PrepareExec(jft: seq<byte>)
    | CommitExec(handle: nat, psp: u16)
    | AbortExec(handle: nat)
    | RetireExec(handle: nat)
    | Terminate(process: nat)

  /** Opens carry a record the registry accepts. */
  predicate Sane(call: Call) {
    call.Open? ==> call.record.Valid()
  }

  lemma {:induction false} LifeDrop(slots: Slots, sfn: byte)
    requires Droppable(slots[sfn])
    ensures forall other: byte :: SameLife(slots[other], Drop(slots, sfn)[other])
  {
  }

  lemma {:induction false} LifeRaise(slots: Slots, list: seq<byte>)
    ensures forall sfn: byte :: SameLife(slots[sfn], Raise(slots, list)[sfn])
  {
    forall sfn: byte ensures SameLife(slots[sfn], Raise(slots, list)[sfn]) { RaiseMeaning(slots, list, sfn); }
  }

  lemma {:induction false} LifeDropAll(slots: Slots, list: seq<byte>)
    requires Covered(slots, list)
    ensures forall sfn: byte :: SameLife(slots[sfn], DropAll(slots, list)[sfn])
  {
    hide Covered;
    forall sfn: byte ensures SameLife(slots[sfn], DropAll(slots, list)[sfn]) {
      DropAllMeaning(slots, list, sfn);
      CoveredAt(slots, list, sfn);
    }
  }

  lemma {:induction false} CoveredAt(slots: Slots, list: seq<byte>, sfn: byte)
    requires Covered(slots, list)
    ensures Count(list, sfn) > 0 ==> slots[sfn].references >= Count(list, sfn)
  {
  }

  lemma {:induction false} LifeFresh(slots: Slots, sfn: byte, s: SftSlot)
    requires slots[sfn].state == FreeSlot
    ensures forall other: byte :: SameLife(slots[other], slots[sfn := s][other])
  {
  }

  /** A batch entered or left the table: the others stay sound. */
  lemma {:induction false} BatchesWith(slots: Slots, batches: seq<BatchSlot>, context: nat, identity: nat, i: nat,
                                       batch: BatchSlot)
    requires BatchesSound(slots, batches, context, identity) && i < |batches| && batch.state != BatchPoisoned
    requires batch.state == Prepared ==>
      && EntriesName(slots, batch.entries) && Sfns(batch.entries) == Used(batch.child)
      && batch.context == context && batch.adapter == identity && |batch.child| == JFT_ENTRIES
    ensures BatchesSound(slots, batches[i := batch], context, identity)
  {
  }

  lemma {:induction false} BatchAt(slots: Slots, batches: seq<BatchSlot>, context: nat, identity: nat, i: nat)
    requires BatchesSound(slots, batches, context, identity) && i < |batches| && batches[i].state == Prepared
    ensures EntriesName(slots, batches[i].entries) && Sfns(batches[i].entries) == Used(batches[i].child)
    ensures batches[i].context == context && batches[i].adapter == identity && |batches[i].child| == JFT_ENTRIES
  {
  }

  lemma {:induction false} BatchesUnpoisoned(slots: Slots, batches: seq<BatchSlot>, context: nat, identity: nat, i: nat)
    requires BatchesSound(slots, batches, context, identity)
    ensures i < |batches| ==> batches[i].state != BatchPoisoned
  {
  }

  /** What a JFT byte names is open. */
  lemma {:induction false} NamedIsLive(slots: Slots, jfts: seq<seq<byte>>, batches: seq<BatchSlot>, p: nat, jfn: nat)
    requires Tallied(slots, jfts, batches) && p < |jfts| && jfn < |jfts[p]| && jfts[p][jfn] != JFT_UNUSED
    ensures Droppable(slots[jfts[p][jfn]])
  {
    hide Pending, Total;
    var sfn := jfts[p][jfn];
    assert TalliedAt(slots[sfn], jfts, batches, sfn);
    TotalAtLeast(jfts, p, sfn);
    CountUpdate(jfts[p], jfn, JFT_UNUSED, sfn);
  }

  lemma {:induction false} InheritedIsLive(slots: Slots, jft: seq<byte>, sfn: byte)
    requires Count(Used(ChildJft(slots, jft)), sfn) > 0
    ensures slots[sfn].Live() && sfn != JFT_UNUSED
  {
    var child := ChildJft(slots, jft);
    UsedCounts(child, sfn);
    CountIn(child, sfn);
  }

  lemma {:induction false} NothingPending(batches: seq<BatchSlot>, sfn: byte)
    requires forall i :: 0 <= i < |batches| ==> batches[i].state != Prepared
    ensures Pending(batches, sfn) == 0
    decreases |batches|
  {
    if batches != [] { NothingPending(batches[..|batches| - 1], sfn); }
  }

  lemma {:induction false} NothingHeld(slots: Slots, batches: seq<BatchSlot>)
    requires forall i :: 0 <= i < |batches| ==> batches[i].state != Prepared
    requires forall sfn: byte :: slots[sfn].state == FreeSlot && slots[sfn].references == 0 && slots[sfn].opens == 0
    ensures Tallied(slots, [], batches)
  {
    forall sfn: byte | sfn != JFT_UNUSED
      ensures TalliedAt(slots[sfn], [], batches, sfn)
    {
      NothingPending(batches, sfn);
    }
  }

  /** The byte read for one handle. */
  lemma {:induction false} JftByte(m: Memory, psp: u16, a20: bool, jfn: nat)
    requires Mapped(m, psp, a20) && jfn < ControlAt(m, psp, a20).length
    ensures var control := ControlAt(m, psp, a20);
      var range := FarRange(control.segment, Advance(control.offset, jfn), 1, a20);
      && Within(range, |m|) && Load(m, range) == [JftAt(m, psp, a20)[jfn]] && Within(JftRange(control, a20), |m|)
  {
    hide ControlAt, JftRange, FarRange, Load;
    var control := ControlAt(m, psp, a20);
    PieceOfJft(m, control, a20, jfn, 1);
    var jft := JftAt(m, psp, a20);
    assert jft[jfn..jfn + 1] == [jft[jfn]];
  }

  lemma {:induction false} JftCell(m: Memory, psp: u16, a20: bool, jfn: nat)
    requires Mapped(m, psp, a20) && jfn < ControlAt(m, psp, a20).length
    ensures var at := JftRange(ControlAt(m, psp, a20), a20)[jfn]; at < |m| && m[at] == JftAt(m, psp, a20)[jfn]
  {
    hide ControlAt, FarRange;
  }

  lemma {:induction false} MappedTable(m: Memory, psp: u16, a20: bool)
    requires Mapped(m, psp, a20)
    ensures Within(JftRange(ControlAt(m, psp, a20), a20), |m|)
  {
  }

  lemma {:induction false} EntriesKept(s0: Slots, s1: Slots, jfts: seq<seq<byte>>, batches: seq<BatchSlot>, j: nat)
    requires Tallied(s1, jfts, batches) && (forall sfn: byte :: SameLife(s0[sfn], s1[sfn]))
    requires j < |batches| && batches[j].state == Prepared && EntriesName(s0, batches[j].entries)
    ensures EntriesName(s1, batches[j].entries)
  {
    hide Total, Pending;
    var entries := batches[j].entries;
    forall k | 0 <= k < |entries|
      ensures EntryNames(s1, entries[k])
    {
      assert EntryNames(s0, entries[k]);
      if entries[k].acquired {
        SfnsCount(entries, k);
        PendingAtLeast(batches, j, entries[k].sfn);
        assert TalliedAt(s1[entries[k].sfn], jfts, batches, entries[k].sfn);
        assert SameLife(s0[entries[k].sfn], s1[entries[k].sfn]);
      }
    }
  }

  lemma {:induction false} NamesIt(registry: Registry, reference: nat, sfn: byte)
    requires registry.Valid() && Droppable(registry.slots[sfn])
    requires reference == MakeReference(sfn, registry.slots[sfn].generation)
    ensures registry.Resolve(registry.context, reference) == Resolved(Ready, sfn)
  {
    hide Lifetimes, MakeReference;
    assert registry.Names(registry.context, reference, sfn);
  }

  class Files {
    const machine: Machine
    const registry: Registry
    const batches: BatchTable
    var poisoned: bool
    /** The PSPs of live processes and the contents of their tables. */
    var live: seq<u16>
    ghost var jfts: seq<seq<byte>>

    ghost predicate Consistent() reads this, machine, registry, batches {
      && Linked(machine.mem, machine.a20, live, jfts)
      && Tallied(registry.slots, jfts, batches.slots)
      && BatchesSound(registry.slots, batches.slots, registry.context, registry.identity)
      && registry.identity != NO_BACKEND && registry.context != NO_BACKEND
    }

    ghost predicate Valid() reads this, machine, registry, batches {
      && machine.Valid() && registry.Valid() && batches.Valid()
      && (!poisoned ==> Consistent())
    }

    /** Start from any state whose books are in order; `NothingHeld` gives one. */
    constructor (machine: Machine, registry: Registry, batches: BatchTable, live: seq<u16>, ghost jfts: seq<seq<byte>>)
      requires machine.Valid() && registry.Valid() && batches.Valid()
      requires registry.identity != NO_BACKEND && registry.context != NO_BACKEND
      requires Linked(machine.mem, machine.a20, live, jfts) && Tallied(registry.slots, jfts, batches.slots)
      requires BatchesSound(registry.slots, batches.slots, registry.context, registry.identity)
      ensures Valid() && !poisoned && this.live == live && this.jfts == jfts
      ensures this.machine == machine && this.registry == registry && this.batches == batches
    {
      this.machine, this.registry, this.batches := machine, registry, batches;
      poisoned := false;
      this.live, this.jfts := live, jfts;
    }

    /** What alone can poison a run: a machine fault or a failed backend close. */
    ghost predicate Quiet(faults: nat, failures: nat) reads machine, registry {
      machine.faults == faults && registry.failures == failures
    }

    /** There is a slot and a table entry for another file. */
    ghost predicate Openable(p: nat) reads this, registry {
      && p < |jfts| && JFT_UNUSED in jfts[p]
      && exists sfn: byte :: sfn != JFT_UNUSED && registry.slots[sfn].state == FreeSlot
                             && registry.slots[sfn].generation < SFT_GENERATION_MAX
    }

    /** Find a free slot and a free JFT entry before anything is opened. */
    method ReserveOpenHandle(p: nat) returns (status: HandleStatus, reservation: Reservation)
      requires Valid() && !poisoned && p < |live|
      modifies machine`faults, registry`slots
      ensures machine.Valid() && registry.Valid() && batches.Valid() && status in {HandleOk, HandleFull, HandleFault}
      ensures machine.faults >= old(machine.faults)
      ensures status == HandleOk ==>
        && registry.slots == old(registry.slots)[reservation.sfn := registry.slots[reservation.sfn]]
        && registry.slots[reservation.sfn].state == Reserved && old(registry.slots)[reservation.sfn].state == FreeSlot
        && reservation.reference == MakeReference(reservation.sfn, registry.slots[reservation.sfn].generation)
        && reservation.sfn != JFT_UNUSED && |jfts| == |live| && reservation.jfn < |jfts[p]|
        && jfts[p][reservation.jfn] == JFT_UNUSED && (forall j :: 0 <= j < reservation.jfn ==> jfts[p][j] != JFT_UNUSED)
        && Mapped(machine.mem, live[p], machine.a20) && reservation.control == ControlAt(machine.mem, live[p], machine.a20)
      ensures status != HandleOk ==> Valid()
      ensures machine.faults == old(machine.faults) && old(Openable(p)) ==> status == HandleOk
      ensures (forall sfn: byte :: sfn != 0xff ==> old(registry.slots)[sfn].state != FreeSlot) ==> status == HandleFull
    {
      hide Linked, Tallied, BatchesSound, Lifetimes, Mapped, JftAt, ControlAt, MakeReference;
      reservation := Reservation(JftControl(0, 0, 0), 0, 0, 0);
      LinkView(machine.mem, machine.a20, live, jfts, p);
      ghost var s0 := registry.slots;
      var reserved, sfn, reference := registry.Reserve(registry.context);
      if reserved == RegistryNoSlot { return HandleFull, reservation; }
      if reserved != Ready { return HandleFault, reservation; }
      var control, jfn;
      status, control, jfn := FindFreeJfn(machine, live[p]);
      if status != HandleOk {
        var cancelled := registry.Cancel(registry.context, reference);
        if cancelled != Ready { assert false; }
        Idle(s0, jfts, batches.slots, sfn, registry.slots[sfn]);
        assert registry.slots == s0[sfn := registry.slots[sfn]];
        return;
      }
      reservation := Reservation(control, reference, jfn, sfn);
    }

    lemma {:induction false} Idle(s0: Slots, jfts: seq<seq<byte>>, slots: seq<BatchSlot>, sfn: byte, s: SftSlot)
      requires Tallied(s0, jfts, slots) && BatchesSound(s0, slots, registry.context, registry.identity)
      requires s0[sfn].state == FreeSlot && s.state == FreeSlot && s.references == 0 && s.opens == 0
      ensures Tallied(s0[sfn := s], jfts, slots)
      ensures BatchesSound(s0[sfn := s], slots, registry.context, registry.identity)
    {
      hide Tallied, BatchesSound;
      TallyIdle(s0, jfts, slots, sfn, s);
      LifeFresh(s0, sfn, s);
      BatchesKept(s0, s0[sfn := s], jfts, slots, registry.context, registry.identity);
    }

    /** Publish the file, then the JFT byte; take the file back if the byte
        cannot be written. */
    method PublishOpenHandle(p: nat, reservation: Reservation, record: PublishRecord, ghost s0: Slots)
      returns (status: CallStatus)
      requires machine.Valid() && registry.Valid() && batches.Valid() && !poisoned && p < |live|
      requires Linked(machine.mem, machine.a20, live, jfts) && Tallied(s0, jfts, batches.slots)
      requires BatchesSound(s0, batches.slots, registry.context, registry.identity)
      requires registry.identity != NO_BACKEND && registry.context != NO_BACKEND
      requires registry.slots == s0[reservation.sfn := registry.slots[reservation.sfn]]
      requires registry.slots[reservation.sfn].state == Reserved && s0[reservation.sfn].state == FreeSlot
      requires reservation.reference == MakeReference(reservation.sfn, registry.slots[reservation.sfn].generation)
      requires reservation.sfn != JFT_UNUSED && reservation.jfn < |jfts[p]| && jfts[p][reservation.jfn] == JFT_UNUSED
      requires Mapped(machine.mem, live[p], machine.a20)
      requires reservation.control == ControlAt(machine.mem, live[p], machine.a20)
      modifies this`poisoned, this`jfts, machine`mem, machine`faults, registry`slots, registry`published, registry`closed,
        registry`closings, registry`failures
      ensures Valid() && status in {Handled, CallFault, CallPoisoned}
      ensures status == Handled ==>
        && !poisoned && jfts == Poke(old(jfts), p, reservation.jfn, reservation.sfn)
        && registry.slots[reservation.sfn].references == 1
      ensures status != Handled && !poisoned ==> jfts == old(jfts)
      ensures status == CallPoisoned <==> poisoned
      ensures machine.faults >= old(machine.faults) && registry.failures >= old(registry.failures)
      ensures status == Handled || !Quiet(old(machine.faults), old(registry.failures)) || !record.Valid()
        || !registry.closeBound
    {
      hide Linked, Tallied, BatchesSound, Lifetimes, ControlAt, JftRange, Poke, MakeReference;
      var sfn := reservation.sfn;
      assert registry.Names(registry.context, reservation.reference, sfn);
      var published := registry.Publish(registry.context, reservation.reference, record);
      if published != Ready {
        poisoned := true;
        return CallPoisoned;
      }
      ghost var s1, m0 := registry.slots, machine.mem;
      assert registry.slots == s0[sfn := registry.slots[sfn]];
      LinkView(m0, machine.a20, live, jfts, p);
      LinkPoke(m0, machine.a20, live, jfts, p, reservation.jfn, sfn);
      assert registry.Names(registry.context, reservation.reference, sfn);
      var entry := ReplaceJftEntry(machine, reservation.control, reservation.jfn, JFT_UNUSED, sfn);
      if entry == HandleOk {
        TallyOpen(s0, jfts, batches.slots, p, reservation.jfn, sfn, s1[sfn]);
        LifeFresh(s0, sfn, s1[sfn]);
        BatchesKept(s0, s1, Poke(jfts, p, reservation.jfn, sfn), batches.slots, registry.context, registry.identity);
        jfts := Poke(jfts, p, reservation.jfn, sfn);
        return Handled;
      }
      status := TakeBack(sfn, reservation.reference, entry == HandlePoisoned, s0);
    }

    /** The table entry could not be written: close the file again. */
    method TakeBack(sfn: byte, reference: nat, torn: bool, ghost s0: Slots) returns (status: CallStatus)
      requires machine.Valid() && registry.Valid() && batches.Valid() && !poisoned
      requires !torn ==> Linked(machine.mem, machine.a20, live, jfts)
      requires Tallied(s0, jfts, batches.slots) && BatchesSound(s0, batches.slots, registry.context, registry.identity)
      requires registry.identity != NO_BACKEND && registry.context != NO_BACKEND && s0[sfn].state == FreeSlot
      requires registry.slots == s0[sfn := registry.slots[sfn]] && Droppable(registry.slots[sfn])
      requires registry.slots[sfn].references == 1 && reference == MakeReference(sfn, registry.slots[sfn].generation)
      modifies this`poisoned, registry`slots, registry`closed, registry`closings, registry`failures
      ensures Valid() && status in {CallFault, CallPoisoned} && (status == CallPoisoned <==> poisoned)
      ensures registry.failures >= old(registry.failures) && (poisoned ==> torn || registry.failures > old(registry.failures))
    {
      hide Linked, Tallied, BatchesSound, Lifetimes, MakeReference;
      if torn { poisoned := true; }
      assert registry.Names(registry.context, reference, sfn);
      var closed := registry.CloseReference(registry.context, reference);
      if closed != Ready {
        poisoned := true;
        return CallPoisoned;
      }
      if torn { return CallPoisoned; }
      Idle(s0, jfts, batches.slots, sfn, registry.slots[sfn]);
      assert registry.slots == s0[sfn := registry.slots[sfn]];
      return CallFault;
    }

    method OpenFile(p: nat, record: PublishRecord, backendOpens: bool) returns (status: CallStatus, jfn: u16)
      requires Valid() && !poisoned && p < |live|
      modifies this`poisoned, this`jfts, machine`mem, machine`faults, registry`slots, registry`published, registry`closed,
        registry`closings, registry`failures
      ensures Valid()
      ensures status == Handled ==>
        && !poisoned && |old(jfts)| == |live| && jfn < |old(jfts)[p]|
        && old(jfts)[p][jfn] == JFT_UNUSED && (forall j :: 0 <= j < jfn ==> old(jfts)[p][j] != JFT_UNUSED)
        && exists sfn: byte :: sfn != JFT_UNUSED && old(registry.slots)[sfn].state == FreeSlot
             && registry.slots[sfn].references == 1 && jfts == Poke(old(jfts), p, jfn, sfn)
      ensures status != Handled && !poisoned ==> jfts == old(jfts)
      ensures machine.faults >= old(machine.faults) && registry.failures >= old(registry.failures)
      ensures poisoned ==> !Quiet(old(machine.faults), old(registry.failures)) || !record.Valid() || !registry.closeBound
      ensures old(Openable(p)) && backendOpens && record.Valid() && registry.closeBound ==>
        status == Handled || !Quiet(old(machine.faults), old(registry.failures))
    {
      hide Linked, Tallied, BatchesSound, Lifetimes, ControlAt, JftRange, Poke, MakeReference, Mapped, Files.Openable;
      jfn := 0;
      ghost var s0 := registry.slots;
      var reserved, reservation := ReserveOpenHandle(p);
      if reserved != HandleOk { return if reserved == HandleFull then DosError else CallFault, 0; }
      var sfn := reservation.sfn;
      if !backendOpens {
        assert registry.Names(registry.context, reservation.reference, sfn);
        var cancelled := registry.Cancel(registry.context, reservation.reference);
        if cancelled != Ready { assert false; }
        Idle(s0, jfts, batches.slots, sfn, registry.slots[sfn]);
        assert registry.slots == s0[sfn := registry.slots[sfn]];
        return DosError, 0;
      }
      status := PublishOpenHandle(p, reservation, record, s0);
      jfn := reservation.jfn;
    }

    /** The file a handle stands for. */
    method ResolveHandle(p: nat, jfn: u16) returns (status: HandleStatus, control: JftControl, sfn: byte)
      requires Valid() && !poisoned && p < |live|
      modifies machine`faults
      ensures status in {HandleOk, HandleInvalid, HandleFault} && machine.faults >= old(machine.faults)
      ensures status == HandleOk ==>
        && |jfts| == |live| && jfn < |jfts[p]| && sfn == jfts[p][jfn] != JFT_UNUSED && Droppable(registry.slots[sfn])
        && Mapped(machine.mem, live[p], machine.a20) && control == ControlAt(machine.mem, live[p], machine.a20)
      ensures status == HandleInvalid ==> |jfts| == |live| && (jfn >= |jfts[p]| || jfts[p][jfn] == JFT_UNUSED)
      ensures status == HandleFault ==> machine.faults > old(machine.faults)
    {
      hide Linked, Tallied, BatchesSound, Lifetimes, ControlAt, JftRange, Mapped, FarRange, Load;
      sfn := 0;
      LinkView(machine.mem, machine.a20, live, jfts, p);
      status, control := ReadJftControl(machine, live[p]);
      if status != HandleOk { return; }
      if jfn >= control.length { return HandleInvalid, control, 0; }
      JftByte(machine.mem, live[p], machine.a20, jfn);
      var read, bytes := machine.ReadFar(control.segment, Advance(control.offset, jfn), 1);
      if read != Ok { return HandleFault, control, 0; }
      sfn := bytes[0];
      if sfn == JFT_UNUSED { return HandleInvalid, control, 0; }
      NamedIsLive(registry.slots, jfts, batches.slots, p, jfn);
      if !registry.slots[sfn].Live() { assert false; }
    }

    /** The count is already given back: clear the JFT byte or poison. */
    method ForgetEntry(p: nat, jfn: u16, control: JftControl, sfn: byte, reference: nat, ghost s0: Slots)
      returns (status: CallStatus)
      requires machine.Valid() && registry.Valid() && batches.Valid() && !poisoned && p < |live|
      requires Linked(machine.mem, machine.a20, live, jfts) && Tallied(s0, jfts, batches.slots)
      requires BatchesSound(s0, batches.slots, registry.context, registry.identity)
      requires registry.identity != NO_BACKEND && registry.context != NO_BACKEND
      requires jfn < |jfts[p]| && jfts[p][jfn] == sfn != JFT_UNUSED && Droppable(s0[sfn])
      requires registry.slots == Drop(s0, sfn) && Mapped(machine.mem, live[p], machine.a20)
      requires control == ControlAt(machine.mem, live[p], machine.a20)
      modifies this`poisoned, this`jfts, machine`mem, machine`faults, registry`slots
      ensures Valid() && status in {Handled, CallPoisoned}
      ensures status == Handled ==>
        !poisoned && jfts == Poke(old(jfts), p, jfn, JFT_UNUSED) && registry.slots == old(registry.slots)
      ensures status == CallPoisoned ==> poisoned
      ensures machine.faults >= old(machine.faults) && (poisoned ==> machine.faults > old(machine.faults))
    {
      hide Linked, Tallied, BatchesSound, Lifetimes, ControlAt, JftRange, Poke, Drop, Registry.Resolve;
      LinkView(machine.mem, machine.a20, live, jfts, p);
      LinkPoke(machine.mem, machine.a20, live, jfts, p, jfn, JFT_UNUSED);
      JftCell(machine.mem, live[p], machine.a20, jfn);
      var entry := ReplaceJftEntry(machine, control, jfn, sfn, JFT_UNUSED);
      if entry != HandleOk {
        var quarantined := registry.Poison(registry.context, reference);
        poisoned := true;
        return CallPoisoned;
      }
      TallyClose(s0, jfts, batches.slots, p, jfn);
      LifeDrop(s0, sfn);
      BatchesKept(s0, registry.slots, Poke(jfts, p, jfn, JFT_UNUSED), batches.slots, registry.context, registry.identity);
      jfts := Poke(jfts, p, jfn, JFT_UNUSED);
      return Handled;
    }

    /** Close one handle: count first, then the JFT byte. */
    method CloseFile(p: nat, jfn: u16) returns (status: CallStatus)
      requires Valid() && !poisoned && p < |live|
      modifies this`poisoned, this`jfts, machine`mem, machine`faults, registry`slots, registry`closed, registry`closings,
        registry`failures
      ensures Valid()
      ensures status == Handled ==>
        && !poisoned && |old(jfts)| == |live| && jfn < |old(jfts)[p]|
        && old(jfts)[p][jfn] != JFT_UNUSED && Droppable(old(registry.slots)[old(jfts)[p][jfn]])
        && registry.slots == Drop(old(registry.slots), old(jfts)[p][jfn])
        && jfts == Poke(old(jfts), p, jfn, JFT_UNUSED)
        && registry.closings == old(registry.closings) +
             (if old(registry.slots)[old(jfts)[p][jfn]].references == 1 then [old(jfts)[p][jfn]] else [])
      ensures status != Handled && !poisoned ==> jfts == old(jfts) && registry.slots == old(registry.slots)
      ensures machine.faults >= old(machine.faults) && registry.failures >= old(registry.failures)
      ensures poisoned ==> !Quiet(old(machine.faults), old(registry.failures))
      ensures Quiet(old(machine.faults), old(registry.failures)) && p < |old(jfts)| ==>
        (status == Handled <==> jfn < |old(jfts)[p]| && old(jfts)[p][jfn] != JFT_UNUSED)
    {
      hide Linked, Tallied, BatchesSound, Lifetimes, ControlAt, JftRange, Poke, MakeReference, Drop, Droppable;
      var found, control, sfn := ResolveHandle(p, jfn);
      if found != HandleOk { return if found == HandleInvalid then DosError else CallFault; }
      ghost var s0 := registry.slots;
      var reference := MakeReference(sfn, registry.slots[sfn].generation);
      NamesIt(registry, reference, sfn);
      var closed := registry.CloseReference(registry.context, reference);
      if closed == BackendFailure { return DosError; }
      if closed == RegistryPoisoned {
        poisoned := true;
        return CallPoisoned;
      }
      if closed != Ready { return CallFault; }
      status := ForgetEntry(p, jfn, control, sfn, reference, s0);
    }

    /** Take the references a child would inherit. */
    method PrepareInheritance(jft: seq<byte>) returns (status: BatchStatus, handle: nat)
      requires Valid() && !poisoned && |jft| == JFT_ENTRIES
      modifies batches`slots, registry`slots, registry`closed, registry`closings, registry`failures
      ensures Valid() && registry.closings == old(registry.closings) && registry.failures == old(registry.failures)
      ensures status == BatchOk ==>
        var child := batches.slots[batches.ResolveHandle(handle).index].child;
        && registry.slots == Raise(old(registry.slots), Used(ChildJft(old(registry.slots), jft)))
        && HandedDown(old(registry.slots), jft, child) && GainsMentions(old(registry.slots), registry.slots, child)
      ensures registry.context != NO_BACKEND && registry.identity != NO_BACKEND ==>
        (status == BatchOk <==> MayHandDown(old(registry.slots), jft) && Available(old(batches.slots)))
      ensures status != BatchOk ==> registry.slots == old(registry.slots)
    {
      hide Linked, Tallied, BatchesSound, Lifetimes, Raise, Used, ChildJft, Sfns, EntriesName, Covered, CanInherit,
        Available, DropAll, Closings, BatchTable.ResolveHandle, BatchHandleSlot, BatchHandleGeneration, HandedDown,
        GainsMentions, MayHandDown;
      ghost var s0, b0 := registry.slots, batches.slots;
      status, handle := batches.Prepare(registry, registry.context, jft);
      if status != BatchOk {
        TallyIdleBatches(s0, jfts, b0, batches.slots, registry.context, registry.identity);
        return;
      }
      ghost var i := batches.ResolveHandle(handle).index;
      ghost var list, batch := Used(ChildJft(s0, jft)), batches.slots[i];
      forall sfn: byte | Count(list, sfn) > 0 ensures s0[sfn].Live() { InheritedIsLive(s0, jft, sfn); }
      TallyPrepare(s0, jfts, b0, i, batch);
      LifeRaise(s0, list);
      PrepareBooks(s0, registry.slots, jfts, b0, i, batch);
    }

    lemma {:induction false} PrepareBooks(s0: Slots, s1: Slots, jfts: seq<seq<byte>>, b0: seq<BatchSlot>, i: nat,
                                          batch: BatchSlot)
      requires BatchesSound(s0, b0, registry.context, registry.identity) && i < |b0| && b0[i].state == BatchFree
      requires Tallied(s1, jfts, b0[i := batch]) && (forall sfn: byte :: SameLife(s0[sfn], s1[sfn]))
      requires batch.state == Prepared && EntriesName(s1, batch.entries) && Sfns(batch.entries) == Used(batch.child)
      requires batch.context == registry.context && batch.adapter == registry.identity && |batch.child| == JFT_ENTRIES
      ensures BatchesSound(s1, b0[i := batch], registry.context, registry.identity)
    {
      hide Tallied, EntriesName, Sfns, Used, SameLife;
      var after := b0[i := batch];
      OthersKept(s0, s1, jfts, b0, i, batch);
    }

    lemma {:induction false} OthersKept(s0: Slots, s1: Slots, jfts: seq<seq<byte>>, b0: seq<BatchSlot>, i: nat,
                                        batch: BatchSlot)
      requires BatchesSound(s0, b0, registry.context, registry.identity) && i < |b0|
      requires Tallied(s1, jfts, b0[i := batch]) && (forall sfn: byte :: SameLife(s0[sfn], s1[sfn]))
      ensures forall j :: 0 <= j < |b0| && j != i && b0[j].state == Prepared ==> EntriesName(s1, b0[j].entries)
    {
      hide Tallied, SameLife, EntryNames, Sfns, Used;
      forall j | 0 <= j < |b0| && j != i && b0[j].state == Prepared
        ensures EntriesName(s1, b0[j].entries)
      {
        EntriesKept(s0, s1, jfts, b0[i := batch], j);
      }
    }

    /** The child's table is live from now on; its PSP must hold it. */
    method CommitInheritance(handle: nat, psp: u16) returns (status: BatchStatus)
      requires Valid() && !poisoned
      modifies this`live, this`jfts, batches`slots
      ensures Valid()
      ensures status == BatchOk ==>
        var found := old(batches.ResolveHandle(handle));
        && found.status == BatchOk && old(batches.slots)[found.index].state == Prepared
        && live == old(live) + [psp] && jfts == old(jfts) + [old(batches.slots)[found.index].child]
      ensures status != BatchOk ==> live == old(live) && jfts == old(jfts)
      ensures var found := old(batches.ResolveHandle(handle));
        status == BatchOk <==>
          && found.status == BatchOk && old(batches.slots)[found.index].state == Prepared
          && Mapped(machine.mem, psp, machine.a20)
          && JftAt(machine.mem, psp, machine.a20) == old(batches.slots)[found.index].child
          && Apart(machine.mem, machine.a20, old(live) + [psp])
    {
      hide Linked, Tallied, BatchesSound, Lifetimes, Sfns, Used, EntriesName, Mapped, JftAt, Apart, BatchHandleSlot,
        BatchHandleGeneration;
      var preflight := batches.PreflightCommit(handle);
      if preflight != BatchOk { return preflight; }
      var index := batches.ResolveHandle(handle).index;
      ghost var b0 := batches.slots;
      var child := batches.slots[index].child;
      if !(Mapped(machine.mem, psp, machine.a20) && JftAt(machine.mem, psp, machine.a20) == child
           && Apart(machine.mem, machine.a20, live + [psp]))
      {
        return BatchInvalidArgument;
      }
      BatchAt(registry.slots, b0, registry.context, registry.identity, index);
      status := batches.Commit(handle);
      TallyCommit(registry.slots, jfts, b0, index, batches.slots[index]);
      BatchesWith(registry.slots, b0, registry.context, registry.identity, index, batches.slots[index]);
      LinkAppend(machine.mem, machine.a20, live, jfts, psp, child);
      live, jfts := live + [psp], jfts + [child];
    }

    /** Take an inheritance back, whatever happened to the files meanwhile. */
    method AbortInheritance(handle: nat) returns (status: BatchStatus)
      requires Valid() && !poisoned
      modifies this`poisoned, batches`slots, registry`slots, registry`closed, registry`closings, registry`failures
      ensures Valid()
      ensures status == BatchOk ==> !poisoned
      ensures registry.failures >= old(registry.failures) && (poisoned ==> registry.failures > old(registry.failures))
      ensures var found := old(batches.ResolveHandle(handle));
        found.status == BatchOk && old(batches.slots)[found.index].state == Prepared ==>
          var list := Sfns(old(batches.slots)[found.index].entries);
          && (status == BatchOk || registry.failures > old(registry.failures))
          && (status == BatchOk ==>
                && Covered(old(registry.slots), list) && registry.slots == DropAll(old(registry.slots), list)
                && registry.closings == old(registry.closings) + Closings(old(registry.slots), list))
    {
      hide Linked, Tallied, BatchesSound, Lifetimes, Sfns, Used, EntriesName, Covered, DropAll, Closings, BatchHandleSlot,
        BatchHandleGeneration;
      ghost var s0, b0, found := registry.slots, batches.slots, batches.ResolveHandle(handle);
      BatchesUnpoisoned(s0, b0, registry.context, registry.identity, found.index);
      if found.status == BatchOk && b0[found.index].state == Prepared {
        BatchAt(s0, b0, registry.context, registry.identity, found.index);
        UsedIsUsed(b0[found.index].child);
        BatchCovered(s0, jfts, b0, found.index);
      }
      status := batches.Abort(handle, registry, registry.context);
      if status == BatchIsPoisoned {
        poisoned := true;
        return;
      }
      if status == BatchOk {
        if b0[found.index].state == Prepared {
          TallyAbort(s0, jfts, b0, found.index, batches.slots[found.index]);
          LifeDropAll(s0, Sfns(b0[found.index].entries));
          AbortBooks(s0, registry.slots, jfts, b0, found.index, batches.slots[found.index]);
        }
      }
    }

    lemma {:induction false} AbortBooks(s0: Slots, s1: Slots, jfts: seq<seq<byte>>, b0: seq<BatchSlot>, i: nat,
                                        batch: BatchSlot)
      requires BatchesSound(s0, b0, registry.context, registry.identity) && i < |b0|
      requires Tallied(s1, jfts, b0[i := batch]) && (forall sfn: byte :: SameLife(s0[sfn], s1[sfn]))
      requires batch.state != Prepared && batch.state != BatchPoisoned
      ensures BatchesSound(s1, b0[i := batch], registry.context, registry.identity)
    {
      hide Tallied, EntriesName, Sfns, Used, SameLife;
      var after := b0[i := batch];
      OthersKept(s0, s1, jfts, b0, i, batch);
    }

    method RetireInheritance(handle: nat) returns (status: BatchStatus)
      requires Valid() && !poisoned
      modifies batches`slots
      ensures Valid()
      ensures var found := old(batches.ResolveHandle(handle));
        status == BatchOk <==> found.status == BatchOk && old(batches.slots)[found.index].state in {BatchAborted, Committed}
    {
      hide Linked, Tallied, BatchesSound, Lifetimes, Sfns, Used, EntriesName, BatchHandleSlot, BatchHandleGeneration;
      ghost var b0, found := batches.slots, batches.ResolveHandle(handle);
      status := batches.Retire(handle);
      if status == BatchOk {
        TallyRetire(registry.slots, jfts, b0, found.index, batches.slots[found.index]);
        BatchesWith(registry.slots, b0, registry.context, registry.identity, found.index, batches.slots[found.index]);
      }
    }

    /** A process dies: every reference of its table is given back. */
    method TerminateProcess(p: nat) returns (status: CallStatus)
      requires Valid() && !poisoned && p < |live|
      modifies this`poisoned, this`live, this`jfts, machine`faults, registry`slots, registry`closed, registry`closings,
        registry`failures
      ensures Valid()
      ensures status == Handled ==>
        && !poisoned && live == Remove(old(live), p) && |old(jfts)| == |old(live)| && jfts == Remove(old(jfts), p)
        && Covered(old(registry.slots), Used(old(jfts)[p]))
        && registry.slots == DropAll(old(registry.slots), Used(old(jfts)[p]))
        && registry.closings == old(registry.closings) + Closings(old(registry.slots), Used(old(jfts)[p]))
      ensures status != Handled && !poisoned ==> live == old(live) && jfts == old(jfts) && registry.slots == old(registry.slots)
      ensures machine.faults >= old(machine.faults) && registry.failures >= old(registry.failures)
      ensures status == Handled || !Quiet(old(machine.faults), old(registry.failures))
    {
      hide Linked, Tallied, BatchesSound, Lifetimes, Used, Covered, DropAll, Closings, Remove, Mapped, ControlAt, JftRange,
        Load;
      LinkView(machine.mem, machine.a20, live, jfts, p);
      var found, control := ReadJftControl(machine, live[p]);
      if found != HandleOk { return CallFault; }
      JftCovered(registry.slots, jfts, batches.slots, p);
      ghost var s0 := registry.slots;
      assert JftAt(machine.mem, live[p], machine.a20) == Load(machine.mem, JftRange(control, machine.a20));
      MappedTable(machine.mem, live[p], machine.a20);
      var closed := CloseHandles(machine, registry, registry.context, control, true);
      if closed != HandlesClosed {
        poisoned := true;
        return CallPoisoned;
      }
      TallyTerminate(s0, jfts, batches.slots, p);
      LifeDropAll(s0, Used(jfts[p]));
      BatchesKept(s0, registry.slots, Remove(jfts, p), batches.slots, registry.context, registry.identity);
      LinkRemove(machine.mem, machine.a20, live, jfts, p);
      live, jfts := Remove(live, p), Remove(jfts, p);
      return Handled;
    }

    method Step(call: Call)
      requires Valid()
      modifies this`poisoned, this`live, this`jfts, machine`mem, machine`faults, batches`slots
      modifies registry`slots, registry`published, registry`closed, registry`closings, registry`failures
      ensures Valid() && (old(poisoned) ==> poisoned)
      ensures machine.faults >= old(machine.faults) && registry.failures >= old(registry.failures)
      ensures !old(poisoned) && poisoned ==>
        !Quiet(old(machine.faults), old(registry.failures)) || !Sane(call) || !registry.closeBound
    {
      hide Consistent, Lifetimes, Poke, Raise, Used, ChildJft, Drop, DropAll, Closings, Covered, Remove;
      if poisoned { return; }
      match call
      case Open(p, record, backendOpens) =>
        if p < |live| { var status, jfn := OpenFile(p, record, backendOpens); }
      case Close(p, jfn) =>
        if p < |live| { var status := CloseFile(p, jfn); }
      case PrepareExec(jft) =>
        if |jft| == JFT_ENTRIES { var status, handle := PrepareInheritance(jft); }
      case CommitExec(handle, psp) =>
        var status := CommitInheritance(handle, psp);
      case AbortExec(handle) =>
        var status := AbortInheritance(handle);
      case RetireExec(handle) =>
        var status := RetireInheritance(handle);
      case Terminate(p) =>
        if p < |live| { var status := TerminateProcess(p); }
    }

    /** Any run of calls, in any order: unless the run was poisoned, each count
        is what live tables and prepared batches account for, each local device
        is open once per reference, and each published file is closed exactly if
        nothing refers to it any more. */
    method Run(calls: seq<Call>)
      requires Valid()
      modifies this`poisoned, this`live, this`jfts, machine`mem, machine`faults, batches`slots
      modifies registry`slots, registry`published, registry`closed, registry`closings, registry`failures
      ensures Valid()
      ensures !poisoned ==>
        forall sfn: byte :: sfn != JFT_UNUSED ==>
          && registry.slots[sfn].references == Total(jfts, sfn) + Pending(batches.slots, sfn)
          && (registry.slots[sfn].Local() ==> registry.slots[sfn].opens == registry.slots[sfn].references)
      ensures !poisoned ==>
        forall r :: r in registry.published && r.sfn != JFT_UNUSED ==>
          (r in registry.closed <==>
             !(registry.slots[r.sfn].generation == r.generation && Total(jfts, r.sfn) + Pending(batches.slots, r.sfn) > 0))
      ensures !old(poisoned) && Quiet(old(machine.faults), old(registry.failures)) && registry.closeBound ==>
        !poisoned || exists i :: 0 <= i < |calls| && !Sane(calls[i])
    {
      hide Linked, BatchesSound, Total, Pending;
      for i := 0 to |calls|
        invariant Valid() && machine.faults >= old(machine.faults) && registry.failures >= old(registry.failures)
        invariant !old(poisoned) && poisoned ==>
          !Quiet(old(machine.faults), old(registry.failures)) || !registry.closeBound
          || exists j :: 0 <= j < i && !Sane(calls[j])
      {
        Step(calls[i]);
      }
      if !poisoned {
        assert forall sfn: byte :: sfn != JFT_UNUSED ==> TalliedAt(registry.slots[sfn], jfts, batches.slots, sfn);
        forall r | r in registry.published && r.sfn != JFT_UNUSED
          ensures r in registry.closed <==>
            !(registry.slots[r.sfn].generation == r.generation && Total(jfts, r.sfn) + Pending(batches.slots, r.sfn) > 0)
        {
          ClosedAtZero(registry.slots, jfts, batches.slots, registry.published, registry.closed, r);
        }
      }
    }
  }
}

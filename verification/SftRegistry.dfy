/** The canonical system file table: shared open files with counted references. */
module SftRegistry {
  import opened GuestMemory
  import opened SftCounts

  const REFERENCE_SLOTS := 512

  datatype RegistryStatus =
    | Ready
    | RegistryInvalidArgument
    | RegistryInvalidState
    | RegistryContextMismatch
    | RegistryNoSlot
    | StaleReference
    | RegistryGenerationExhausted
    | BackendFailure
    | RegistryPoisoned

  datatype AdapterStatus = AdapterOk | InvalidSft | AdapterFault

  datatype CloseOutcome = Closed | ExactFailure | Uncertain

  /** What an open hands to the registry; kinds are standard, file and device. */
  datatype PublishRecord = PublishRecord(flags: bv16, mode: bv16, backend: nat, kind: byte) {
    predicate Valid() { kind < 3 && (kind != 0 ==> backend != NO_BACKEND) }
  }

  datatype Resolved = Resolved(status: RegistryStatus, sfn: byte)
  datatype FileView = FileView(reference: nat, flags: bv16, mode: bv16)

  // ---------- references ----------

  function MakeReference(sfn: byte, generation: nat): (reference: nat) {
    generation * REFERENCE_SLOTS + sfn + 1
  }

  function ReferenceSlot(reference: nat): (slot: nat) { reference % REFERENCE_SLOTS }
  function ReferenceGeneration(reference: nat): (generation: nat) { reference / REFERENCE_SLOTS }

  lemma {:induction false} ReferenceRoundTrip(sfn: byte, generation: nat)
    ensures ReferenceSlot(MakeReference(sfn, generation)) == sfn + 1
    ensures ReferenceGeneration(MakeReference(sfn, generation)) == generation
  {
  }

  // ---------- lifetimes ----------

  datatype FileRef = FileRef(sfn: byte, generation: nat)

  /** Every file ever published is either still in its slot or closed for good. */
  ghost predicate Lifetimes(slots: Slots, published: set<FileRef>, closed: set<FileRef>) {
    && closed <= published
    && (forall r :: r in published ==> r.generation <= slots[r.sfn].generation)
    && (forall r :: r in published && r !in closed ==>
          slots[r.sfn].generation == r.generation && slots[r.sfn].state in {Present, PoisonedSlot})
    && (forall r :: r in closed && slots[r.sfn].generation == r.generation ==> slots[r.sfn].state == FreeSlot)
    && (forall sfn: byte :: slots[sfn].state == Present ==> FileRef(sfn, slots[sfn].generation) in published)
  }

  lemma {:induction false} LifeReserve(slots: Slots, published: set<FileRef>, closed: set<FileRef>, sfn: byte, s: SftSlot)
    requires Lifetimes(slots, published, closed) && slots[sfn].state == FreeSlot
    requires s.generation > slots[sfn].generation && s.state != Present
    ensures Lifetimes(slots[sfn := s], published, closed) && FileRef(sfn, s.generation) !in published
  {
  }

  lemma {:induction false} LifePublish(slots: Slots, published: set<FileRef>, closed: set<FileRef>, sfn: byte, s: SftSlot)
    requires Lifetimes(slots, published, closed) && s.state == Present
    requires (slots[sfn].state == Reserved && s.generation == slots[sfn].generation && FileRef(sfn, s.generation) !in published)
      || (slots[sfn].state == FreeSlot && s.generation > slots[sfn].generation)
    ensures Lifetimes(slots[sfn := s], published + {FileRef(sfn, s.generation)}, closed)
  {
  }

  lemma {:induction false} LifeKeep(slots: Slots, published: set<FileRef>, closed: set<FileRef>, sfn: byte, s: SftSlot)
    requires Lifetimes(slots, published, closed) && slots[sfn].state != FreeSlot && s.generation == slots[sfn].generation
    requires s.state == PoisonedSlot || s.state == slots[sfn].state || (slots[sfn].state == Reserved && s.state == FreeSlot)
    requires slots[sfn].state == Reserved ==> FileRef(sfn, s.generation) !in published
    ensures Lifetimes(slots[sfn := s], published, closed)
  {
  }

  lemma {:induction false} LifeClose(slots: Slots, published: set<FileRef>, closed: set<FileRef>, sfn: byte)
    requires Lifetimes(slots, published, closed) && slots[sfn].state == Present
    ensures FileRef(sfn, slots[sfn].generation) in published && FileRef(sfn, slots[sfn].generation) !in closed
    ensures Lifetimes(slots[sfn := slots[sfn].Recycled()], published, closed + {FileRef(sfn, slots[sfn].generation)})
  {
  }

  class Registry {
    const identity: nat
    const context: nat
    var slots: Slots
    var closeBound: bool
    /** Files ever published and files whose backend was closed. */
    ghost var published: set<FileRef>
    ghost var closed: set<FileRef>
    /** The slots of successful backend closes, in order, and how many attempts
        failed. */
    ghost var closings: seq<byte>
    ghost var failures: nat

    ghost predicate Valid() reads this {
      && (forall sfn: byte :: slots[sfn].Counted() && (slots[sfn].state != FreeSlot ==> slots[sfn].generation > 0))
      && Lifetimes(slots, published, closed)
      && (forall sfn: byte :: slots[sfn].state == Reserved ==> FileRef(sfn, slots[sfn].generation) !in published)
    }

    constructor (identity: nat, context: nat)
      ensures Valid() && this.identity == identity && this.context == context && !closeBound
      ensures published == {} && closed == {} && closings == [] && failures == 0
      ensures forall sfn: byte :: slots[sfn] == SftSlot(0, FreeSlot, 0, 0, 0, 0, NO_BACKEND, 0)
    {
      this.identity, this.context, this.closeBound := identity, context, false;
      slots := seq(SFT_SLOTS, i => SftSlot(0, FreeSlot, 0, 0, 0, 0, NO_BACKEND, 0));
      published, closed, closings, failures := {}, {}, [], 0;
    }

    method BindBackendClose(context: nat) returns (status: RegistryStatus)
      modifies this`closeBound
      ensures status == Ready <==> context == this.context && !old(closeBound)
      ensures status == Ready ==> closeBound
      ensures status != Ready ==> closeBound == old(closeBound)
    {
      if context != this.context { return RegistryContextMismatch; }
      if closeBound { return RegistryInvalidState; }
      closeBound := true;
      return Ready;
    }

    /** Put a ready-made file (the standard devices) into a free slot. */
    method Install(sfn: byte, flags: bv16, mode: bv16, references: nat) returns (status: RegistryStatus)
      requires Valid() && references <= COUNTER_MAX
      modifies this`slots, this`published
      ensures Valid()
      ensures status == Ready <==>
        references != 0 && old(slots)[sfn].state == FreeSlot && old(slots)[sfn].generation < 0x7f_ffff_ffff_ffff
      ensures status == Ready ==>
        && slots == old(slots)[sfn := slots[sfn]] && slots[sfn].Live() && slots[sfn].references == references
        && slots[sfn].Balanced() && slots[sfn].flags == flags && slots[sfn].mode == mode
        && slots[sfn].generation == old(slots)[sfn].generation + 1
      ensures status != Ready ==> slots == old(slots) && published == old(published)
    {
      hide Lifetimes;
      if references == 0 { return RegistryInvalidArgument; }
      var slot := slots[sfn];
      if slot.state != FreeSlot { return RegistryInvalidState; }
      if slot.generation >= SFT_GENERATION_MAX { return RegistryGenerationExhausted; }
      var opens := if flags & NETWORK == 0 then references else 0;
      var now := SftSlot(slot.generation + 1, Present, references, opens, flags, mode, NO_BACKEND, 0);
      LifePublish(slots, published, closed, sfn, now);
      FreshLater(slots, published, closed, sfn);
      published := published + {FileRef(sfn, now.generation)};
      slots := slots[sfn := now];
      return Ready;
    }

    ghost predicate Names(context: nat, reference: nat, sfn: byte) reads this`slots {
      && context == this.context && slots[sfn].state != FreeSlot && 0 < slots[sfn].generation <= SFT_GENERATION_MAX
      && reference == MakeReference(sfn, slots[sfn].generation)
    }

    /** The slot a reference names, if it is of the slot's present life. */
    function Resolve(context: nat, reference: nat): (r: Resolved)
      reads this`slots
      ensures r.status == Ready ==>
        && context == this.context && slots[r.sfn].state != FreeSlot
        && ReferenceSlot(reference) == r.sfn + 1 && ReferenceGeneration(reference) == slots[r.sfn].generation
      ensures r.status in {Ready, RegistryContextMismatch, RegistryInvalidArgument, StaleReference}
      ensures forall sfn: byte :: Names(context, reference, sfn) ==> r == Resolved(Ready, sfn)
    {
      assert forall sfn: byte :: Names(context, reference, sfn) ==> ReferenceSlot(reference) == sfn + 1 by {
        forall sfn: byte | Names(context, reference, sfn) { ReferenceRoundTrip(sfn, slots[sfn].generation); }
      }
      assert forall sfn: byte :: Names(context, reference, sfn) ==> ReferenceGeneration(reference) == slots[sfn].generation by {
        forall sfn: byte | Names(context, reference, sfn) { ReferenceRoundTrip(sfn, slots[sfn].generation); }
      }
      var slot, generation := ReferenceSlot(reference), ReferenceGeneration(reference);
      if context != this.context then Resolved(RegistryContextMismatch, 0)
      else if reference == 0 then Resolved(RegistryInvalidArgument, 0)
      else if slot == 0 || slot > SFT_SLOTS || generation == 0
              || generation > SFT_GENERATION_MAX then Resolved(StaleReference, 0)
      else var sfn: byte := slot - 1;
           if slots[sfn].state == FreeSlot || slots[sfn].generation != generation then Resolved(StaleReference, 0)
           else Resolved(Ready, sfn)
    }

    /** A reference finds exactly the file it spells: 512 times the generation plus
        the slot's number, counted from one. */
    lemma {:induction false} ResolvedExactly(context: nat, reference: nat)
      ensures var r := Resolve(context, reference);
        && (r.status == RegistryContextMismatch <==> context != this.context)
        && (context == this.context ==> (r.status == RegistryInvalidArgument <==> reference == 0))
        && (r.status == Ready ==> reference == 512 * slots[r.sfn].generation + r.sfn + 1)
        && (r.status == Ready <==>
              && context == this.context
              && exists sfn: byte :: slots[sfn].state != FreeSlot && 0 < slots[sfn].generation < 0x80_0000_0000_0000
                                     && reference == 512 * slots[sfn].generation + sfn + 1)
    {
      forall sfn: byte | slots[sfn].state != FreeSlot && 0 < slots[sfn].generation < 0x80_0000_0000_0000
                         && reference == 512 * slots[sfn].generation + sfn + 1
        ensures context == this.context ==> Resolve(context, reference).status == Ready
      {
        ReferenceRoundTrip(sfn, slots[sfn].generation);
      }
    }

    /** Take the first free slot that a JFT byte can name. */
    method Reserve(context: nat) returns (status: RegistryStatus, sfn: byte, reference: nat)
      requires Valid()
      modifies this`slots
      ensures Valid()
      ensures status in {Ready, RegistryContextMismatch, RegistryNoSlot, RegistryGenerationExhausted}
      ensures status == Ready ==>
        && sfn != 0xff && old(slots)[sfn].state == FreeSlot
        && (forall j: byte :: j < sfn ==> old(slots)[j].state != FreeSlot || old(slots)[j].generation >= 0x7f_ffff_ffff_ffff)
        && slots == old(slots)[sfn := SftSlot(old(slots)[sfn].generation + 1, Reserved, 0, 0, 0, 0, NO_BACKEND, 0)]
        && reference == MakeReference(sfn, slots[sfn].generation) && Resolve(context, reference) == Resolved(Ready, sfn)
      ensures status != Ready ==> slots == old(slots)
      ensures status == RegistryNoSlot ==> forall j: byte :: j != 0xff ==> slots[j].state != FreeSlot
      ensures status == RegistryContextMismatch <==> context != this.context
      ensures status == RegistryGenerationExhausted ==>
        && (forall j: byte :: j != 0xff ==> slots[j].state != FreeSlot || slots[j].generation >= 0x7f_ffff_ffff_ffff)
        && exists j: byte :: j != 0xff && slots[j].state == FreeSlot
    {
      hide Lifetimes, Resolve, MakeReference;
      sfn, reference := 0, 0;
      if context != this.context { return RegistryContextMismatch, sfn, reference; }
      var exhausted, index := false, 0;
      while index < JFT_UNUSED
        invariant index <= JFT_UNUSED
        invariant forall j: byte :: j < index ==> slots[j].state != FreeSlot || slots[j].generation >= SFT_GENERATION_MAX
        invariant exhausted <==> exists j: byte :: j < index && slots[j].state == FreeSlot
      {
        var slot := slots[index];
        if slot.state == FreeSlot {
          if slot.generation >= SFT_GENERATION_MAX {
            exhausted := true;
          } else {
            var now := SftSlot(slot.generation + 1, Reserved, 0, 0, 0, 0, NO_BACKEND, 0);
            LifeReserve(slots, published, closed, index, now);
            slots := slots[index := now];
            return Ready, index, MakeReference(index, now.generation);
          }
        }
        index := index + 1;
      }
      return if exhausted then RegistryGenerationExhausted else RegistryNoSlot, sfn, reference;
    }

    /** Fill a reserved slot with an open file and its first reference. */
    method Publish(context: nat, reference: nat, record: PublishRecord) returns (status: RegistryStatus)
      requires Valid()
      modifies this`slots, this`published
      ensures Valid()
      ensures status == Ready <==>
        var r := old(Resolve(context, reference));
        && record.kind < 3 && (record.kind == 0 || record.backend != 0xffff_ffff_ffff_ffff) && r.status == Ready
        && old(slots)[r.sfn].state == Reserved && closeBound
      ensures status == Ready ==>
        var sfn := old(Resolve(context, reference)).sfn;
        && slots == old(slots)[sfn := slots[sfn]] && slots[sfn].generation == old(slots)[sfn].generation
        && slots[sfn].Live() && slots[sfn].references == 1 && slots[sfn].Balanced()
        && slots[sfn].flags == record.flags && slots[sfn].mode == record.mode
        && slots[sfn].backend == record.backend && slots[sfn].kind == record.kind
        && published == old(published) + {FileRef(sfn, slots[sfn].generation)}
      ensures status != Ready ==> slots == old(slots) && published == old(published)
    {
      hide Lifetimes, Resolve;
      if !record.Valid() { return RegistryInvalidArgument; }
      var r := Resolve(context, reference);
      if r.status != Ready { return r.status; }
      var slot := slots[r.sfn];
      if slot.state != Reserved { return if slot.state == PoisonedSlot then RegistryPoisoned else RegistryInvalidState; }
      if !closeBound { return RegistryInvalidState; }
      var opens := if record.flags & NETWORK == 0 then 1 else 0;
      var now := SftSlot(slot.generation, Present, 1, opens, record.flags, record.mode, record.backend, record.kind);
      LifePublish(slots, published, closed, r.sfn, now);
      published := published + {FileRef(r.sfn, now.generation)};
      slots := slots[r.sfn := now];
      return Ready;
    }

    /** Give a reservation up. */
    method Cancel(context: nat, reference: nat) returns (status: RegistryStatus)
      requires Valid()
      modifies this`slots
      ensures Valid()
      ensures status == Ready <==>
        var r := old(Resolve(context, reference)); r.status == Ready && old(slots)[r.sfn].state == Reserved
      ensures status == Ready ==>
        var sfn := old(Resolve(context, reference)).sfn; slots == old(slots)[sfn := old(slots)[sfn].Recycled()]
      ensures status != Ready ==> slots == old(slots)
    {
      hide Lifetimes, Resolve;
      var r := Resolve(context, reference);
      if r.status != Ready { return r.status; }
      var slot := slots[r.sfn];
      if slot.state != Reserved { return if slot.state == PoisonedSlot then RegistryPoisoned else RegistryInvalidState; }
      LifeKeep(slots, published, closed, r.sfn, slot.Recycled());
      slots := slots[r.sfn := slot.Recycled()];
      return Ready;
    }

    /** Ask the backend to close; anything but a clean answer poisons the slot. */
    method InvokeBackendClose(sfn: byte) returns (status: RegistryStatus)
      requires Valid() && slots[sfn].state == Present
      modifies this`slots, this`closed, this`closings, this`failures
      ensures Valid()
      ensures status in {Ready, RegistryInvalidState, BackendFailure, RegistryPoisoned}
      ensures status == Ready ==>
        && failures == old(failures) && slots == old(slots)[sfn := old(slots)[sfn].Recycled()]
        && closings == old(closings) + [sfn] && closed == old(closed) + {FileRef(sfn, old(slots)[sfn].generation)}
        && FileRef(sfn, old(slots)[sfn].generation) !in old(closed)
      ensures status != Ready ==>
        failures == old(failures) + 1 && closings == old(closings) && closed == old(closed)
      ensures status == RegistryPoisoned ==> slots == old(slots)[sfn := old(slots)[sfn].(state := PoisonedSlot)]
      ensures status == BackendFailure || status == RegistryInvalidState ==> slots == old(slots)
      ensures status == RegistryInvalidState <==> !closeBound
    {
      hide Lifetimes;
      if !closeBound {
        failures := failures + 1;
        return RegistryInvalidState;
      }
      var outcome: CloseOutcome, clean: bool := *, *;
      if outcome == Closed && clean {
        LifeClose(slots, published, closed, sfn);
        closed := closed + {FileRef(sfn, slots[sfn].generation)};
        closings := closings + [sfn];
        slots := slots[sfn := slots[sfn].Recycled()];
        return Ready;
      }
      failures := failures + 1;
      if outcome == ExactFailure && clean { return BackendFailure; }
      LifeKeep(slots, published, closed, sfn, slots[sfn].(state := PoisonedSlot));
      slots := slots[sfn := slots[sfn].(state := PoisonedSlot)];
      return RegistryPoisoned;
    }

    /** Give one reference back as a handle close does. */
    method CloseReference(context: nat, reference: nat) returns (status: RegistryStatus)
      requires Valid()
      modifies this`slots, this`closed, this`closings, this`failures
      ensures Valid()
      ensures status == Ready ==>
        var sfn := old(Resolve(context, reference)).sfn;
        && old(Resolve(context, reference)).status == Ready && Droppable(old(slots)[sfn])
        && slots == Drop(old(slots), sfn) && failures == old(failures)
        && closings == old(closings) + (if old(slots)[sfn].references == 1 then [sfn] else [])
      ensures status != Ready ==> closings == old(closings) && closed == old(closed)
      ensures status != Ready && status != RegistryPoisoned ==> slots == old(slots)
      ensures status == RegistryPoisoned ==> exists sfn: byte :: slots[sfn].state == PoisonedSlot
      ensures var r := old(Resolve(context, reference));
        && (r.status == Ready && Droppable(old(slots)[r.sfn]) ==> status == Ready || failures > old(failures))
        && (r.status != Ready ==> status == r.status)
        && (r.status == Ready && old(slots)[r.sfn].state == PoisonedSlot ==> status == RegistryPoisoned)
    {
      hide Lifetimes, Resolve;
      var r := Resolve(context, reference);
      if r.status != Ready { return r.status; }
      var slot := slots[r.sfn];
      if slot.state == PoisonedSlot { return RegistryPoisoned; }
      if slot.state != Present || slot.references == 0 { return RegistryInvalidState; }
      if !slot.Balanced() {
        LifeKeep(slots, published, closed, r.sfn, slot.(state := PoisonedSlot));
        slots := slots[r.sfn := slot.(state := PoisonedSlot)];
        assert slots[r.sfn].state == PoisonedSlot;
        return RegistryPoisoned;
      }
      if slot.references > 1 {
        LifeKeep(slots, published, closed, r.sfn, slot.Down());
        slots := slots[r.sfn := slot.Down()];
        return Ready;
      }
      status := InvokeBackendClose(r.sfn);
      assert status == RegistryPoisoned ==> slots[r.sfn].state == PoisonedSlot;
    }

    /** Take a slot out of use. */
    method Poison(context: nat, reference: nat) returns (status: RegistryStatus)
      requires Valid()
      modifies this`slots
      ensures Valid()
      ensures var r := old(Resolve(context, reference));
        slots == if status == Ready then old(slots)[r.sfn := old(slots)[r.sfn].(state := PoisonedSlot)] else old(slots)
      ensures var r := old(Resolve(context, reference));
        && (status == Ready <==> r.status == Ready && old(slots)[r.sfn].state in {Reserved, Present})
        && (status == RegistryPoisoned <==> r.status == Ready && old(slots)[r.sfn].state == PoisonedSlot)
    {
      hide Lifetimes, Resolve;
      var r := Resolve(context, reference);
      if r.status != Ready { return r.status; }
      var slot := slots[r.sfn];
      if slot.state == PoisonedSlot { return RegistryPoisoned; }
      if slot.state != Reserved && slot.state != Present { return RegistryInvalidState; }
      LifeKeep(slots, published, closed, r.sfn, slot.(state := PoisonedSlot));
      slots := slots[r.sfn := slot.(state := PoisonedSlot)];
      return Ready;
    }

    // ---------- the adapter that EXEC and termination use ----------

    function Lookup(context: nat, sfn: byte): (r: (AdapterStatus, FileView))
      reads this`slots
      ensures r.0 == AdapterOk <==> context == this.context && slots[sfn].state == Present && slots[sfn].references > 0
      ensures r.0 == AdapterOk ==> r.1 == FileView(512 * slots[sfn].generation + sfn + 1, slots[sfn].flags, slots[sfn].mode)
      ensures r.0 == AdapterFault <==> context != this.context || slots[sfn].state == PoisonedSlot
    {
      var slot := slots[sfn];
      if context != this.context || slot.state == PoisonedSlot then (AdapterFault, FileView(0, 0, 0))
      else if !slot.Live() then (InvalidSft, FileView(0, 0, 0))
      else (AdapterOk, FileView(MakeReference(sfn, slot.generation), slot.flags, slot.mode))
    }

    method DeviceOpen(context: nat, reference: nat) returns (status: AdapterStatus)
      requires Valid()
      modifies this`slots
      ensures Valid()
      ensures var r := old(Resolve(context, reference));
        status == AdapterOk <==> r.status == Ready && Droppable(old(slots)[r.sfn]) && old(slots)[r.sfn].Local()
                                 && old(slots)[r.sfn].opens < COUNTER_MAX
      ensures var sfn := old(Resolve(context, reference)).sfn;
        slots == if status == AdapterOk then old(slots)[sfn := old(slots)[sfn].(opens := old(slots)[sfn].opens + 1)]
          else old(slots)
    {
      hide Lifetimes, Resolve;
      var r := Resolve(context, reference);
      if r.status != Ready { return AdapterFault; }
      var slot := slots[r.sfn];
      if !slot.Live() || !slot.Local() || slot.opens != slot.references || slot.opens == COUNTER_MAX { return AdapterFault; }
      LifeKeep(slots, published, closed, r.sfn, slot.(opens := slot.opens + 1));
      slots := slots[r.sfn := slot.(opens := slot.opens + 1)];
      return AdapterOk;
    }

    method ReferenceAcquire(context: nat, reference: nat) returns (status: AdapterStatus)
      requires Valid()
      modifies this`slots
      ensures Valid()
      ensures var r := old(Resolve(context, reference));
        var slot := old(slots)[r.sfn];
        status == AdapterOk <==> r.status == Ready && slot.Live() && slot.references < COUNTER_MAX
                                 && slot.opens == if slot.Local() then slot.references + 1 else 0
      ensures var sfn := old(Resolve(context, reference)).sfn;
        slots == if status == AdapterOk then old(slots)[sfn := old(slots)[sfn].(references := old(slots)[sfn].references + 1)]
                 else old(slots)
    {
      hide Lifetimes, Resolve;
      var r := Resolve(context, reference);
      if r.status != Ready { return AdapterFault; }
      var slot := slots[r.sfn];
      if !slot.Live() || slot.references == COUNTER_MAX { return AdapterFault; }
      if (slot.Local() && slot.opens != slot.references + 1) || (!slot.Local() && slot.opens != 0) { return AdapterFault; }
      LifeKeep(slots, published, closed, r.sfn, slot.(references := slot.references + 1));
      slots := slots[r.sfn := slot.(references := slot.references + 1)];
      return AdapterOk;
    }

    method ReferenceRelease(context: nat, reference: nat) returns (status: AdapterStatus)
      requires Valid()
      modifies this`slots, this`closed, this`closings, this`failures
      ensures Valid() && failures >= old(failures)
      ensures failures > old(failures) ==> var slot := old(slots)[old(Resolve(context, reference)).sfn];
        !slot.Local() && slot.references == 1
      ensures status == AdapterOk ==>
        var r := old(Resolve(context, reference));
        var slot := old(slots)[r.sfn];
        && r.status == Ready && Droppable(slot) && failures == old(failures)
        && (if slot.Local() || slot.references > 1
            then slots == old(slots)[r.sfn := slot.(references := slot.references - 1)]
                 && closings == old(closings) && closed == old(closed)
            else slots == old(slots)[r.sfn := slot.Recycled()] && closings == old(closings) + [r.sfn])
      ensures status != AdapterOk ==> closings == old(closings) && closed == old(closed)
      ensures var sfn := old(Resolve(context, reference)).sfn;
        status != AdapterOk ==>
          slots == if failures > old(failures) then old(slots)[sfn := old(slots)[sfn].(state := PoisonedSlot)] else old(slots)
      ensures var r := old(Resolve(context, reference));
        r.status == Ready && Droppable(old(slots)[r.sfn]) ==> status == AdapterOk || failures > old(failures)
    {
      hide Lifetimes, Resolve;
      var r := Resolve(context, reference);
      if r.status != Ready { return AdapterFault; }
      var slot := slots[r.sfn];
      if !slot.Live() || !slot.Balanced() { return AdapterFault; }
      if !slot.Local() && slot.references == 1 {
        var closeStatus := InvokeBackendClose(r.sfn);
        if closeStatus == Ready { return AdapterOk; }
        LifeKeep(slots, published, closed, r.sfn, slots[r.sfn].(state := PoisonedSlot));
        slots := slots[r.sfn := slots[r.sfn].(state := PoisonedSlot)];
        return AdapterFault;
      }
      LifeKeep(slots, published, closed, r.sfn, slot.(references := slot.references - 1));
      slots := slots[r.sfn := slot.(references := slot.references - 1)];
      return AdapterOk;
    }

    method DeviceClose(context: nat, reference: nat) returns (status: AdapterStatus)
      requires Valid()
      modifies this`slots, this`closed, this`closings, this`failures
      ensures Valid() && failures >= old(failures)
      ensures failures > old(failures) ==> old(slots)[old(Resolve(context, reference)).sfn].references == 0
      ensures status == AdapterOk ==>
        var r := old(Resolve(context, reference));
        var slot := old(slots)[r.sfn];
        && r.status == Ready && slot.state == Present && slot.Local() && slot.opens == slot.references + 1
        && failures == old(failures)
        && (if slot.references > 0
            then slots == old(slots)[r.sfn := slot.(opens := slot.opens - 1)]
                 && closings == old(closings) && closed == old(closed)
            else slots == old(slots)[r.sfn := slot.Recycled()] && closings == old(closings) + [r.sfn])
      ensures status != AdapterOk ==> closings == old(closings) && closed == old(closed)
      ensures var sfn := old(Resolve(context, reference)).sfn;
        status != AdapterOk ==>
          slots == if failures > old(failures) then old(slots)[sfn := old(slots)[sfn].(state := PoisonedSlot)] else old(slots)
      ensures var r := old(Resolve(context, reference));
        var slot := old(slots)[r.sfn];
        r.status == Ready && slot.state == Present && slot.Local() && slot.opens == slot.references + 1 ==>
          status == AdapterOk || failures > old(failures)
    {
      hide Lifetimes, Resolve;
      var r := Resolve(context, reference);
      if r.status != Ready { return AdapterFault; }
      var slot := slots[r.sfn];
      if slot.state != Present || !slot.Local() || slot.opens == 0 || slot.opens - 1 != slot.references { return AdapterFault; }
      if slot.references != 0 {
        LifeKeep(slots, published, closed, r.sfn, slot.(opens := slot.opens - 1));
        slots := slots[r.sfn := slot.(opens := slot.opens - 1)];
        return AdapterOk;
      }
      var closeStatus := InvokeBackendClose(r.sfn);
      if closeStatus == Ready { return AdapterOk; }
      LifeKeep(slots, published, closed, r.sfn, slots[r.sfn].(state := PoisonedSlot));
      slots := slots[r.sfn := slots[r.sfn].(state := PoisonedSlot)];
      return AdapterFault;
    }
  }

  lemma {:induction false} FreshLater(slots: Slots, published: set<FileRef>, closed: set<FileRef>, sfn: byte)
    requires Lifetimes(slots, published, closed)
    ensures forall g: nat :: g > slots[sfn].generation ==> FileRef(sfn, g) !in published
  {
  }
}

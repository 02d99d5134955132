/** EXEC's inheritance of file references, as a batch that is committed or
    taken back. */
module SftBatch {
  import opened GuestMemory
  import opened SftCounts
  import opened SftRegistry

  const JFT_ENTRIES := 20
  const BATCH_SLOTS := 8
  const BATCH_HANDLE_SLOTS := 16
  const BATCH_GENERATION_MAX := 0x0fff_ffff_ffff_ffff

  datatype BatchStatus =
    | BatchOk
    | BatchInvalidArgument
    | BatchNoSlot
    | BatchStaleHandle
    | BatchInvalidState
    | AlreadyCommitted
    | BatchAdapterFault
    | BatchIsPoisoned

  datatype BatchState = BatchFree | Preparing | Prepared | Committed | BatchAborted | BatchPoisoned

  /** One inherited JFT byte and what was done for it. */
  datatype Entry = Entry(reference: nat, sfn: byte, deviceOpen: bool, acquired: bool)

  datatype BatchSlot = BatchSlot(generation: nat, state: BatchState, context: nat, adapter: nat, entries: seq<Entry>,
                                 child: seq<byte>)

  const EMPTY_JFT: seq<byte> := seq(JFT_ENTRIES, i => JFT_UNUSED)

  // ---------- entries ----------

  /** The slots referenced by the entries, in order. */
  function Sfns(entries: seq<Entry>): (list: seq<byte>) {
    if entries == [] then []
    else var e := entries[|entries| - 1];
         Sfns(entries[..|entries| - 1]) + (if e.acquired then [e.sfn] else [])
  }

  /** The JFT bytes in use, in order. */
  function Used(jft: seq<byte>): (list: seq<byte>) {
    if jft == [] then []
    else var sfn := jft[|jft| - 1];
         Used(jft[..|jft| - 1]) + (if sfn == JFT_UNUSED then [] else [sfn])
  }

  lemma {:induction false} UsedCounts(jft: seq<byte>, sfn: byte)
    ensures Count(Used(jft), sfn) == if sfn == JFT_UNUSED then 0 else Count(jft, sfn)
    decreases |jft|
  {
    if jft != [] {
      var rest, last := jft[..|jft| - 1], jft[|jft| - 1];
      UsedCounts(rest, sfn);
      if last == JFT_UNUSED {
        assert Used(jft) == Used(rest);
      } else {
        assert Used(jft)[..|Used(jft)| - 1] == Used(rest);
      }
    }
  }

  /** Every entry names the present life of its slot. */
  ghost predicate EntriesName(slots: Slots, entries: seq<Entry>) {
    forall i :: 0 <= i < |entries| ==> EntryNames(slots, entries[i])
  }

  ghost predicate EntryNames(slots: Slots, e: Entry) {
    if e.acquired
    then slots[e.sfn].state == Present && e.sfn != JFT_UNUSED && 0 < slots[e.sfn].generation <= SFT_GENERATION_MAX
         && e.reference == MakeReference(e.sfn, slots[e.sfn].generation) && e.deviceOpen == slots[e.sfn].Local()
    else !e.deviceOpen
  }

  lemma {:induction false} SfnsCount(entries: seq<Entry>, i: nat)
    requires i < |entries| && entries[i].acquired
    ensures Count(Sfns(entries), entries[i].sfn) > 0
    decreases |entries|
  {
    var rest, e := entries[..|entries| - 1], entries[|entries| - 1];
    if e.acquired { assert Sfns(entries)[..|Sfns(entries)| - 1] == Sfns(rest); }
    else { assert Sfns(entries) == Sfns(rest); }
    if i < |rest| { SfnsCount(rest, i); }
  }

  lemma {:induction false} SfnsStep(entries: seq<Entry>, n: nat)
    requires 0 < n <= |entries|
    ensures entries[n - 1].acquired ==> Sfns(entries[..n]) == Sfns(entries[..n - 1]) + [entries[n - 1].sfn]
    ensures !entries[n - 1].acquired ==> Sfns(entries[..n]) == Sfns(entries[..n - 1])
  {
    assert entries[..n][..n - 1] == entries[..n - 1];
  }

  /** A state of the unwinding loop: what remains is covered, and giving it back
      too ends where the whole list ends. */
  ghost predicate Unwinding(slots0: Slots, slots: Slots, entries: seq<Entry>, n: nat, closings0: seq<byte>,
                            closings: seq<byte>)
  {
    && n <= |entries| && EntriesName(slots, entries[..n]) && Covered(slots, Sfns(entries[..n]))
    && Covered(slots0, Sfns(entries))
    && DropAll(slots, Sfns(entries[..n])) == DropAll(slots0, Sfns(entries))
    && closings + Closings(slots, Sfns(entries[..n])) == closings0 + Closings(slots0, Sfns(entries))
  }

  lemma {:induction false} UnwindStarts(slots: Slots, entries: seq<Entry>, closings: seq<byte>)
    requires EntriesName(slots, entries) && Covered(slots, Sfns(entries))
    ensures Unwinding(slots, slots, entries, |entries|, closings, closings)
  {
    assert entries[..|entries|] == entries;
  }

  lemma {:induction false} UnwindView(slots0: Slots, slots: Slots, entries: seq<Entry>, n: nat, closings0: seq<byte>,
                                      closings: seq<byte>)
    requires Unwinding(slots0, slots, entries, n, closings0, closings) && n > 0
    ensures var e := entries[n - 1]; EntryNames(slots, e) && (e.acquired ==> Droppable(slots[e.sfn]))
    ensures var e := entries[n - 1];
      e.acquired && closings == closings0 && Closings(slots0, Sfns(entries)) == [] ==> slots[e.sfn].references > 1
  {
    hide DropAll;
    assert entries[..n][n - 1] == entries[n - 1];
    if entries[n - 1].acquired {
      SfnsCount(entries[..n], n - 1);
      SfnsStep(entries, n);
      assert closings0 + [] == closings0;
    }
  }

  lemma {:induction false} UnwindSkips(slots0: Slots, slots: Slots, entries: seq<Entry>, n: nat, closings0: seq<byte>,
                                       closings: seq<byte>)
    requires Unwinding(slots0, slots, entries, n, closings0, closings) && n > 0 && !entries[n - 1].acquired
    ensures Unwinding(slots0, slots, entries, n - 1, closings0, closings)
  {
    hide DropAll, Closings, Covered, EntryNames;
    SfnsStep(entries, n);
    assert forall i :: 0 <= i < n - 1 ==> entries[..n - 1][i] == entries[..n][i];
  }

  lemma {:induction false} UnwindSteps(slots0: Slots, slots: Slots, entries: seq<Entry>, n: nat, closings0: seq<byte>,
                                       closings: seq<byte>)
    requires Unwinding(slots0, slots, entries, n, closings0, closings) && n > 0 && entries[n - 1].acquired
    requires Droppable(slots[entries[n - 1].sfn])
    ensures var sfn := entries[n - 1].sfn;
      Unwinding(slots0, Drop(slots, sfn), entries, n - 1, closings0,
                closings + if slots[sfn].references == 1 then [sfn] else [])
  {
    hide Covered, EntryNames;
    var sfn := entries[n - 1].sfn;
    var list, rest := Sfns(entries[..n]), Sfns(entries[..n - 1]);
    SfnsStep(entries, n);
    assert list[..|list| - 1] == rest && list[|list| - 1] == sfn;
    CoveredStep(slots, list);
    var after, first := Drop(slots, sfn), if slots[sfn].references == 1 then [sfn] else [];
    EntriesAfterDrop(slots, entries, n);
    assert closings + (first + Closings(after, rest)) == (closings + first) + Closings(after, rest);
  }

  lemma {:induction false} EntriesAfterDrop(slots: Slots, entries: seq<Entry>, n: nat)
    requires 0 < n <= |entries| && EntriesName(slots, entries[..n]) && Covered(slots, Sfns(entries[..n]))
    requires entries[n - 1].acquired && Droppable(slots[entries[n - 1].sfn])
    ensures EntriesName(Drop(slots, entries[n - 1].sfn), entries[..n - 1])
  {
    var sfn := entries[n - 1].sfn;
    var list, rest := Sfns(entries[..n]), Sfns(entries[..n - 1]);
    SfnsStep(entries, n);
    assert list[..|list| - 1] == rest && list[|list| - 1] == sfn;
    assert Count(list, sfn) == Count(rest, sfn) + 1;
    var left := entries[..n - 1];
    forall i | 0 <= i < |left|
      ensures EntryNames(Drop(slots, sfn), left[i])
    {
      assert EntryNames(slots, entries[..n][i]);
      if entries[i].acquired && entries[i].sfn == sfn { SfnsCount(entries[..n - 1], i); }
    }
  }

  // ---------- what EXEC inherits ----------

  predicate Inherits(s: SftSlot) { s.Live() && s.Inheritable() }

  /** The child keeps each byte that names an inheritable open file. */
  function ChildJft(slots: Slots, jft: seq<byte>): (child: seq<byte>)
    ensures |child| == |jft|
  {
    seq(|jft|, i requires 0 <= i < |jft| => if jft[i] != JFT_UNUSED && Inherits(slots[jft[i]]) then jft[i] else JFT_UNUSED)
  }

  /** No named slot is poisoned, and each inherited one can take its mentions. */
  ghost predicate CanInherit(slots: Slots, jft: seq<byte>) {
    forall i :: 0 <= i < |jft| && jft[i] != JFT_UNUSED ==>
      && slots[jft[i]].state != PoisonedSlot
      && (Inherits(slots[jft[i]]) ==>
            slots[jft[i]].Balanced()
            && slots[jft[i]].references + Count(Used(ChildJft(slots, jft)), jft[i]) <= COUNTER_MAX)
  }

  /** Where a table mentions a file. */
  function Places(jft: seq<byte>, sfn: byte): (places: set<nat>) {
    set i: nat | i < |jft| && jft[i] == sfn
  }

  lemma {:induction false} CountIsPlaces(jft: seq<byte>, sfn: byte)
    ensures Count(jft, sfn) == |Places(jft, sfn)|
    decreases |jft|
  {
    if jft != [] {
      var n := |jft| - 1;
      CountIsPlaces(jft[..n], sfn);
      if jft[n] == sfn {
        assert Places(jft, sfn) == Places(jft[..n], sfn) + {n};
      } else {
        assert Places(jft, sfn) == Places(jft[..n], sfn);
      }
    } else {
      assert Places(jft, sfn) == {};
    }
  }

  /** What EXEC hands down: an open file, unless it is marked private to the
      process (flag 1000h) or is a network FCB (sharing mode 70h).  Every other
      entry of the child's table is unused. */
  ghost predicate HandedDown(before: Slots, jft: seq<byte>, child: seq<byte>) {
    && |child| == |jft|
    && forall i :: 0 <= i < |jft| ==>
         var file := before[jft[i]];
         child[i] ==
           if jft[i] == 0xff then 0xff
           else if file.state == Present && file.references > 0 && file.flags & 0x1000 == 0 && file.mode & 0x00f0 != 0x0070
           then jft[i]
           else 0xff
  }

  /** Every file gains one reference for each place the child's table has it in,
      and a local one (flag 8000h clear) as many device opens; nothing else. */
  ghost predicate GainsMentions(before: Slots, after: Slots, child: seq<byte>) {
    forall sfn: byte ::
      var n := if sfn == 0xff then 0 else |Places(child, sfn)|;
      after[sfn] == before[sfn].(references := before[sfn].references + n,
                                 opens := before[sfn].opens + if before[sfn].flags & 0x8000 == 0 then n else 0)
  }

  /** No file the table names is poisoned, and each one handed down has its
      device count in step and room for all its mentions. */
  ghost predicate MayHandDown(before: Slots, jft: seq<byte>) {
    forall i :: 0 <= i < |jft| && jft[i] != 0xff ==>
      var file := before[jft[i]];
      && file.state != PoisonedSlot
      && (file.state == Present && file.references > 0 && file.flags & 0x1000 == 0 && file.mode & 0x00f0 != 0x0070 ==>
            && file.opens == (if file.flags & 0x8000 == 0 then file.references else 0)
            && file.references + |Places(jft, jft[i])| <= 0xffff_ffff)
  }

  lemma {:induction false} MayHandDownMeaning(slots: Slots, jft: seq<byte>)
    ensures CanInherit(slots, jft) <==> MayHandDown(slots, jft)
  {
    hide Count, Used, Places;
    var child := ChildJft(slots, jft);
    forall i | 0 <= i < |jft| && jft[i] != JFT_UNUSED && Inherits(slots[jft[i]])
      ensures Count(Used(child), jft[i]) == |Places(jft, jft[i])|
    {
      UsedCounts(child, jft[i]);
      SamePlaces(slots, jft, jft[i]);
      CountIsPlaces(child, jft[i]);
    }
  }

  lemma {:induction false} SamePlaces(slots: Slots, jft: seq<byte>, sfn: byte)
    requires sfn != JFT_UNUSED && Inherits(slots[sfn])
    ensures Places(ChildJft(slots, jft), sfn) == Places(jft, sfn)
  {
  }

  /** The child's table and the counts, without the preparing loop's terms. */
  lemma {:induction false} InheritanceMeaning(slots: Slots, jft: seq<byte>)
    ensures HandedDown(slots, jft, ChildJft(slots, jft))
    ensures GainsMentions(slots, Raise(slots, Used(ChildJft(slots, jft))), ChildJft(slots, jft))
  {
    hide Count, Raise, Used, Places;
    var child := ChildJft(slots, jft);
    forall sfn: byte
      ensures var n := if sfn == 0xff then 0 else |Places(child, sfn)|;
        Raise(slots, Used(child))[sfn] ==
          slots[sfn].(references := slots[sfn].references + n,
                      opens := slots[sfn].opens + if slots[sfn].flags & 0x8000 == 0 then n else 0)
    {
      RaiseMeaning(slots, Used(child), sfn);
      UsedCounts(child, sfn);
      CountIsPlaces(child, sfn);
    }
  }

  /** A state of the preparing loop after `i` JFT bytes. */
  ghost predicate Inheriting(slots0: Slots, slots: Slots, jft: seq<byte>, i: nat, entries: seq<Entry>) {
    && i <= |jft| && EntriesName(slots0, entries) && (forall j :: 0 <= j < |entries| ==> entries[j].acquired)
    && Sfns(entries) == Used(ChildJft(slots0, jft)[..i]) && slots == Raise(slots0, Sfns(entries))
    && (forall sfn: byte :: Count(Sfns(entries), sfn) > 0 ==>
          Droppable(slots0[sfn]) && slots0[sfn].references + Count(Sfns(entries), sfn) <= COUNTER_MAX)
    && (forall j :: 0 <= j < i && jft[j] != JFT_UNUSED ==>
          slots0[jft[j]].state != PoisonedSlot && (Inherits(slots0[jft[j]]) ==> Count(Sfns(entries), jft[j]) > 0))
  }

  lemma {:induction false} InheritStarts(slots: Slots, jft: seq<byte>)
    ensures Inheriting(slots, slots, jft, 0, [])
  {
    assert ChildJft(slots, jft)[..0] == [];
  }

  lemma {:induction false} InheritView(slots0: Slots, slots: Slots, jft: seq<byte>, i: nat, entries: seq<Entry>, sfn: byte)
    requires Inheriting(slots0, slots, jft, i, entries)
    ensures slots[sfn] == slots0[sfn].(references := slots[sfn].references, opens := slots[sfn].opens)
    ensures slots[sfn].references == slots0[sfn].references + Count(Sfns(entries), sfn)
    ensures slots[sfn].Live() == slots0[sfn].Live() && (slots0[sfn].Live() ==> slots[sfn].Balanced() == slots0[sfn].Balanced())
  {
    RaiseMeaning(slots0, Sfns(entries), sfn);
  }

  lemma {:induction false} UsedStep(jft: seq<byte>, i: nat)
    requires i < |jft|
    ensures Used(jft[..i + 1]) == Used(jft[..i]) + (if jft[i] == JFT_UNUSED then [] else [jft[i]])
  {
    assert jft[..i + 1][..i] == jft[..i];
  }

  lemma {:induction false} InheritSkips(slots0: Slots, slots: Slots, jft: seq<byte>, i: nat, entries: seq<Entry>)
    requires Inheriting(slots0, slots, jft, i, entries) && i < |jft|
    requires jft[i] != JFT_UNUSED ==> !Inherits(slots0[jft[i]]) && slots0[jft[i]].state != PoisonedSlot
    ensures Inheriting(slots0, slots, jft, i + 1, entries)
  {
    hide Raise, EntriesName, Count;
    UsedStep(ChildJft(slots0, jft), i);
  }

  lemma {:induction false} InheritSteps(slots0: Slots, slots: Slots, jft: seq<byte>, i: nat, entries: seq<Entry>, e: Entry)
    requires Inheriting(slots0, slots, jft, i, entries) && i < |jft| && jft[i] != JFT_UNUSED
    requires Inherits(slots0[jft[i]]) && e.acquired && e.sfn == jft[i] && EntryNames(slots0, e)
    requires Droppable(slots[e.sfn]) && slots[e.sfn].references < COUNTER_MAX
    ensures Inheriting(slots0, slots[e.sfn := slots[e.sfn].Up()], jft, i + 1, entries + [e])
  {
    var now := entries + [e];
    UsedStep(ChildJft(slots0, jft), i);
    assert now[..|entries|] == entries;
    assert Sfns(now)[..|Sfns(entries)|] == Sfns(entries);
    InheritView(slots0, slots, jft, i, entries, e.sfn);
  }

  /** Success means all bytes could be inherited, and failure that one could not. */
  lemma {:induction false} InheritEnds(slots0: Slots, slots: Slots, jft: seq<byte>, entries: seq<Entry>)
    requires Inheriting(slots0, slots, jft, |jft|, entries)
    ensures CanInherit(slots0, jft) && Sfns(entries) == Used(ChildJft(slots0, jft))
    ensures slots == Raise(slots0, Used(ChildJft(slots0, jft)))
  {
    hide Raise, EntriesName;
    assert ChildJft(slots0, jft)[..|jft|] == ChildJft(slots0, jft);
  }

  lemma {:induction false} InheritFails(slots0: Slots, slots: Slots, jft: seq<byte>, i: nat, entries: seq<Entry>)
    requires Inheriting(slots0, slots, jft, i, entries) && i < |jft| && jft[i] != JFT_UNUSED
    requires slots[jft[i]].state == PoisonedSlot ||
      (Inherits(slots0[jft[i]]) && !(Droppable(slots[jft[i]]) && slots[jft[i]].references < COUNTER_MAX))
    ensures !CanInherit(slots0, jft)
  {
    hide Raise, EntriesName;
    InheritView(slots0, slots, jft, i, entries, jft[i]);
    if Inherits(slots0[jft[i]]) && slots0[jft[i]].Balanced() {
      UsedStep(ChildJft(slots0, jft), i);
      UsedGrows(ChildJft(slots0, jft), i + 1, jft[i]);
      var list := Used(ChildJft(slots0, jft)[..i + 1]);
      assert list[..|list| - 1] == Used(ChildJft(slots0, jft)[..i]);
    }
  }

  lemma {:induction false} UsedGrows(jft: seq<byte>, i: nat, sfn: byte)
    requires i <= |jft|
    ensures Count(Used(jft[..i]), sfn) <= Count(Used(jft), sfn)
    decreases |jft| - i
  {
    if i == |jft| {
      assert jft[..i] == jft;
    } else {
      UsedGrows(jft, i + 1, sfn);
      UsedStep(jft, i);
      if jft[i] != JFT_UNUSED {
        var list := Used(jft[..i + 1]);
        assert list[..|list| - 1] == Used(jft[..i]);
      } else {
        assert Used(jft[..i + 1]) == Used(jft[..i]);
      }
    }
  }

  /** An unfinished preparation can be taken back exactly. */
  lemma {:induction false} InheritUndo(slots0: Slots, slots: Slots, jft: seq<byte>, i: nat, entries: seq<Entry>)
    requires Inheriting(slots0, slots, jft, i, entries)
    ensures EntriesName(slots, entries) && Covered(slots, Sfns(entries))
    ensures DropAll(slots, Sfns(entries)) == slots0 && Closings(slots, Sfns(entries)) == []
  {
    hide DropAll, Closings, Used;
    RaiseThenDrop(slots0, Sfns(entries));
    forall j | 0 <= j < |entries|
      ensures EntryNames(slots, entries[j])
    {
      RaiseMeaning(slots0, Sfns(entries), entries[j].sfn);
    }
  }

  // ---------- the table of batches ----------

  function MakeBatchHandle(slot: nat, generation: nat): (handle: nat) {
    generation * BATCH_HANDLE_SLOTS + slot + 1
  }

  function BatchHandleSlot(handle: nat): (slot: nat) { handle % BATCH_HANDLE_SLOTS }
  function BatchHandleGeneration(handle: nat): (generation: nat) { handle / BATCH_HANDLE_SLOTS }

  lemma {:induction false} BatchHandleRoundTrip(slot: nat, generation: nat)
    requires slot < BATCH_SLOTS
    ensures BatchHandleSlot(MakeBatchHandle(slot, generation)) == slot + 1
    ensures BatchHandleGeneration(MakeBatchHandle(slot, generation)) == generation
  {
  }

  datatype BatchFound = BatchFound(status: BatchStatus, index: nat)

  ghost predicate Available(slots: seq<BatchSlot>) {
    exists i :: 0 <= i < |slots| && slots[i].state == BatchFree && slots[i].generation < 0x0fff_ffff_ffff_ffff
  }

  class BatchTable {
    var slots: seq<BatchSlot>

    ghost predicate Valid() reads this {
      && |slots| == BATCH_SLOTS
      && forall i :: 0 <= i < |slots| ==> slots[i].generation <= BATCH_GENERATION_MAX
    }

    constructor ()
      ensures Valid() && forall i :: 0 <= i < |slots| ==> slots[i].state == BatchFree
    {
      slots := seq(BATCH_SLOTS, i => BatchSlot(0, BatchFree, NO_BACKEND, NO_BACKEND, [], EMPTY_JFT));
    }

    function ResolveHandle(handle: nat): (found: BatchFound)
      requires Valid()
      reads this
      ensures found.status in {BatchOk, BatchStaleHandle}
      ensures found.status == BatchOk ==>
        && found.index < BATCH_SLOTS && slots[found.index].state != BatchFree
        && BatchHandleSlot(handle) == found.index + 1 && BatchHandleGeneration(handle) == slots[found.index].generation
    {
      var slot, generation := BatchHandleSlot(handle), BatchHandleGeneration(handle);
      if slot == 0 || generation == 0 || slot > BATCH_SLOTS || slots[slot - 1].state == BatchFree
         || slots[slot - 1].generation != generation
      then BatchFound(BatchStaleHandle, 0)
      else BatchFound(BatchOk, slot - 1)
    }

    /** A handle finds exactly the batch it spells: sixteen times the generation
        plus the slot's number, counted from one. */
    lemma {:induction false} FoundExactly(handle: nat)
      requires Valid()
      ensures var found := ResolveHandle(handle);
        && (found.status == BatchOk ==> handle == 16 * slots[found.index].generation + found.index + 1)
        && (found.status == BatchOk <==>
              exists i :: 0 <= i < 8 && slots[i].state != BatchFree && slots[i].generation > 0
                          && handle == 16 * slots[i].generation + i + 1)
    {
      forall i | 0 <= i < 8 && slots[i].state != BatchFree && slots[i].generation > 0
                 && handle == 16 * slots[i].generation + i + 1
        ensures ResolveHandle(handle).status == BatchOk
      {
        BatchHandleRoundTrip(i, slots[i].generation);
      }
    }

    /** Open the device for a local file, then take the reference. */
    method AcquireEntry(registry: Registry, context: nat, sfn: byte, view: FileView) returns (ok: bool, entry: Entry)
      requires registry.Valid() && context == registry.context && registry.slots[sfn].Live()
      requires view == FileView(MakeReference(sfn, registry.slots[sfn].generation), registry.slots[sfn].flags,
                                registry.slots[sfn].mode)
      modifies registry`slots
      ensures registry.Valid()
      ensures ok <==> Droppable(old(registry.slots)[sfn]) && old(registry.slots)[sfn].references < COUNTER_MAX
      ensures ok ==>
        && registry.slots == old(registry.slots)[sfn := old(registry.slots)[sfn].Up()]
        && entry == Entry(view.reference, sfn, old(registry.slots)[sfn].Local(), true)
      ensures !ok ==> registry.slots == old(registry.slots) && entry == Entry(view.reference, sfn, false, false)
    {
      hide Lifetimes, MakeReference;
      entry := Entry(view.reference, sfn, false, false);
      assert registry.Names(context, view.reference, sfn);
      if view.flags & NETWORK == 0 {
        var device := registry.DeviceOpen(context, view.reference);
        if device != AdapterOk { return false, entry; }
        entry := entry.(deviceOpen := true);
        assert registry.Names(context, view.reference, sfn);
      }
      var acquired := registry.ReferenceAcquire(context, view.reference);
      if acquired != AdapterOk { return false, entry; }
      entry := entry.(acquired := true);
      assert registry.slots == old(registry.slots)[sfn := old(registry.slots)[sfn].Up()];
      return true, entry;
    }

    /** Give the reference of one entry back, then close its device. */
    method UndoEntry(registry: Registry, context: nat, entry: Entry, ghost good: bool) returns (ok: bool, entry': Entry)
      requires registry.Valid()
      requires good ==>
        && EntryNames(registry.slots, entry) && context == registry.context
        && (entry.acquired ==> Droppable(registry.slots[entry.sfn]))
      modifies registry`slots, registry`closed, registry`closings, registry`failures
      ensures registry.Valid() && registry.failures >= old(registry.failures)
      ensures good ==> ok || registry.failures > old(registry.failures)
      ensures good && registry.failures > old(registry.failures) ==>
        entry.acquired && old(registry.slots)[entry.sfn].references == 1
      ensures good && ok && entry.acquired ==>
        && registry.slots == Drop(old(registry.slots), entry.sfn)
        && registry.closings == old(registry.closings) +
             (if old(registry.slots)[entry.sfn].references == 1 then [entry.sfn] else [])
      ensures good && !entry.acquired ==>
        ok && registry.slots == old(registry.slots) && registry.closings == old(registry.closings)
    {
      hide Lifetimes, MakeReference;
      ok, entry' := true, entry;
      ghost var s0 := registry.slots;
      if good && entry.acquired { assert registry.Names(context, entry.reference, entry.sfn); }
      if entry.acquired {
        var released := registry.ReferenceRelease(context, entry.reference);
        if released == AdapterOk { entry' := entry'.(acquired := false); } else { ok := false; }
      }
      if !entry'.acquired && entry'.deviceOpen {
        if good { assert registry.Names(context, entry.reference, entry.sfn); }
        var released := registry.DeviceClose(context, entry.reference);
        if released == AdapterOk { entry' := entry'.(deviceOpen := false); } else { ok := false; }
      }
      assert good && ok && entry.acquired ==> registry.slots == Drop(s0, entry.sfn);
    }

    /** Undo all entries from the last to the first, going on after a failure. */
    method UnwindEntries(registry: Registry, context: nat, entries: seq<Entry>, ghost good: bool)
      returns (ok: bool, left: seq<Entry>)
      requires registry.Valid()
      requires good ==>
        && EntriesName(registry.slots, entries) && Covered(registry.slots, Sfns(entries))
        && (entries != [] ==> context == registry.context)
      modifies registry`slots, registry`closed, registry`closings, registry`failures
      ensures registry.Valid() && registry.failures >= old(registry.failures) && |left| == |entries|
      ensures good ==> ok || registry.failures > old(registry.failures)
      ensures good && Closings(old(registry.slots), Sfns(entries)) == [] ==> ok && registry.failures == old(registry.failures)
      ensures good && ok ==>
        && registry.slots == DropAll(old(registry.slots), Sfns(entries))
        && registry.closings == old(registry.closings) + Closings(old(registry.slots), Sfns(entries))
    {
      hide Lifetimes, Unwinding, EntriesName, Covered, Sfns, DropAll, Closings, Drop;
      ghost var slots0, closings0 := registry.slots, registry.closings;
      ok, left := true, entries;
      var remaining := |entries|;
      if good { UnwindStarts(slots0, entries, closings0); }
      while remaining != 0
        invariant registry.Valid() && 0 <= remaining <= |entries| == |left| && registry.failures >= old(registry.failures)
        invariant left[..remaining] == entries[..remaining]
        invariant good ==> ok || registry.failures > old(registry.failures)
        invariant good && Closings(slots0, Sfns(entries)) == [] ==>
          ok && registry.failures == old(registry.failures) && registry.closings == closings0
        invariant good && ok ==> Unwinding(slots0, registry.slots, entries, remaining, closings0, registry.closings)
        decreases remaining
      {
        var entry := left[remaining - 1];
        assert entry == entries[remaining - 1] by {
          assert left[..remaining][remaining - 1] == entries[..remaining][remaining - 1];
        }
        ghost var s1, c1, sound := registry.slots, registry.closings, good && ok;
        if sound { UnwindView(slots0, s1, entries, remaining, closings0, c1); }
        var undone, entry' := UndoEntry(registry, context, entry, sound);
        left := left[remaining - 1 := entry'];
        ok := ok && undone;
        if good && ok {
          if entry.acquired {
            UnwindSteps(slots0, s1, entries, remaining, closings0, c1);
          } else {
            UnwindSkips(slots0, s1, entries, remaining, closings0, c1);
          }
        }
        remaining := remaining - 1;
      }
      if good && ok { UnwindEnds(slots0, registry.slots, entries, closings0, registry.closings); }
    }

    /** One JFT byte: skip it, or take its reference, or fail. */
    method InheritByte(registry: Registry, context: nat, jft: seq<byte>, i: nat, entries: seq<Entry>, ghost slots0: Slots)
      returns (ok: bool, inherited: byte, entries': seq<Entry>)
      requires registry.Valid() && i < |jft| && Inheriting(slots0, registry.slots, jft, i, entries)
      requires entries != [] ==> context == registry.context
      modifies registry`slots
      ensures registry.Valid() && (entries' != [] ==> context == registry.context)
      ensures ok ==>
        && Inheriting(slots0, registry.slots, jft, i + 1, entries')
        && inherited == if jft[i] != JFT_UNUSED && Inherits(slots0[jft[i]]) then jft[i] else JFT_UNUSED
      ensures !ok ==>
        && EntriesName(registry.slots, entries') && Covered(registry.slots, Sfns(entries'))
        && DropAll(registry.slots, Sfns(entries')) == slots0 && Closings(registry.slots, Sfns(entries')) == []
        && (context == registry.context ==> !CanInherit(slots0, jft))
    {
      hide Lifetimes, Inheriting, Sfns, Used, Raise, EntriesName, CanInherit, MakeReference, Covered, DropAll, Closings;
      var sfn := jft[i];
      ghost var s1 := registry.slots;
      InheritView(slots0, s1, jft, i, entries, sfn);
      if sfn == JFT_UNUSED {
        InheritSkips(slots0, s1, jft, i, entries);
        return true, JFT_UNUSED, entries;
      }
      var found, view := registry.Lookup(context, sfn).0, registry.Lookup(context, sfn).1;
      if found == InvalidSft {
        InheritSkips(slots0, s1, jft, i, entries);
        return true, JFT_UNUSED, entries;
      }
      if found != AdapterOk {
        if context == registry.context { InheritFails(slots0, s1, jft, i, entries); }
        InheritUndo(slots0, s1, jft, i, entries);
        return false, JFT_UNUSED, entries;
      }
      if !(view.flags & NO_INHERIT == 0 && view.mode & SHARING_MASK != SHARING_NETWORK_FCB) {
        InheritSkips(slots0, s1, jft, i, entries);
        return true, JFT_UNUSED, entries;
      }
      var entry;
      ok, entry := AcquireEntry(registry, context, sfn, view);
      if !ok {
        InheritFails(slots0, s1, jft, i, entries);
        InheritUndo(slots0, s1, jft, i, entries);
        NothingDone(s1, entries, entry);
        return false, JFT_UNUSED, entries + [entry];
      }
      InheritSteps(slots0, s1, jft, i, entries, entry);
      return true, sfn, entries + [entry];
    }

    /** Undo a preparation and give its slot back, or poison the batch. */
    method FailPrepare(registry: Registry, context: nat, index: nat, entries: seq<Entry>, ghost good: bool)
      returns (status: BatchStatus)
      requires Valid() && registry.Valid() && index < BATCH_SLOTS
      requires good ==>
        && EntriesName(registry.slots, entries) && Covered(registry.slots, Sfns(entries))
        && (entries != [] ==> context == registry.context) && Closings(registry.slots, Sfns(entries)) == []
      modifies this`slots, registry`slots, registry`closed, registry`closings, registry`failures
      ensures Valid() && registry.Valid() && status in {BatchAdapterFault, BatchIsPoisoned}
      ensures good ==>
        && status == BatchAdapterFault && registry.slots == DropAll(old(registry.slots), Sfns(entries))
        && registry.failures == old(registry.failures) && registry.closings == old(registry.closings)
      ensures status == BatchAdapterFault ==>
        slots == old(slots)[index := BatchSlot(old(slots)[index].generation, BatchFree, NO_BACKEND, NO_BACKEND, [], EMPTY_JFT)]
      ensures status == BatchIsPoisoned ==>
        slots == old(slots)[index := slots[index]] && slots[index].state == BatchPoisoned
    {
      hide Lifetimes, Sfns, EntriesName, Covered, DropAll, Closings;
      var ok, left := UnwindEntries(registry, context, entries, good);
      if !ok {
        slots := slots[index := slots[index].(state := BatchPoisoned, entries := left)];
        return BatchIsPoisoned;
      }
      slots := slots[index := BatchSlot(slots[index].generation, BatchFree, NO_BACKEND, NO_BACKEND, [], EMPTY_JFT)];
      return BatchAdapterFault;
    }

    /** Take one reference for every inheritable file the parent's JFT names, or
        leave the registry as it was. */
    method Prepare(registry: Registry, context: nat, jft: seq<byte>) returns (status: BatchStatus, handle: nat)
      requires Valid() && registry.Valid() && |jft| == JFT_ENTRIES
      modifies this`slots, registry`slots, registry`closed, registry`closings, registry`failures
      ensures Valid() && registry.Valid() && registry.failures == old(registry.failures)
      ensures registry.closings == old(registry.closings)
      ensures status in {BatchOk, BatchInvalidArgument, BatchNoSlot, BatchAdapterFault}
      ensures status == BatchOk ==>
        var found := ResolveHandle(handle);
        var child := ChildJft(old(registry.slots), jft);
        && registry.slots == Raise(old(registry.slots), Used(child)) && found.status == BatchOk
        && old(slots)[found.index].state == BatchFree
        && slots == old(slots)[found.index := slots[found.index]]
        && slots[found.index].state == Prepared && slots[found.index].child == child
        && slots[found.index].generation > old(slots)[found.index].generation
        && slots[found.index].context == context && slots[found.index].adapter == registry.identity
        && Sfns(slots[found.index].entries) == Used(child) && EntriesName(registry.slots, slots[found.index].entries)
        && Covered(registry.slots, Used(child)) && DropAll(registry.slots, Used(child)) == old(registry.slots)
        && Closings(registry.slots, Used(child)) == []
      ensures status == BatchOk ==>
        var child := slots[ResolveHandle(handle).index].child;
        HandedDown(old(registry.slots), jft, child) && GainsMentions(old(registry.slots), registry.slots, child)
      ensures status != BatchOk ==>
        && registry.slots == old(registry.slots)
        && (forall i :: 0 <= i < BATCH_SLOTS ==> slots[i].state == old(slots)[i].state)
        && (forall i :: 0 <= i < BATCH_SLOTS && old(slots)[i].state != BatchFree ==> slots[i] == old(slots)[i])
      ensures status == BatchInvalidArgument <==>
        context == 0xffff_ffff_ffff_ffff || registry.identity == 0xffff_ffff_ffff_ffff
      ensures context == registry.context && context != NO_BACKEND && registry.identity != NO_BACKEND ==>
        && (status == BatchOk <==> CanInherit(old(registry.slots), jft) && Available(old(slots)))
        && (status == BatchOk <==> MayHandDown(old(registry.slots), jft) && Available(old(slots)))
    {
      hide Lifetimes, Inheriting, Sfns, Used, Raise, EntriesName, CanInherit, MakeBatchHandle, MakeReference,
        BatchHandleSlot, BatchHandleGeneration, Covered, DropAll, Closings, ChildJft, HandedDown, GainsMentions,
        MayHandDown;
      handle := 0;
      MayHandDownMeaning(registry.slots, jft);
      if context == NO_BACKEND || registry.identity == NO_BACKEND { return BatchInvalidArgument, 0; }
      var index := 0;
      while index < BATCH_SLOTS && !(slots[index].state == BatchFree && slots[index].generation < BATCH_GENERATION_MAX)
        invariant index <= BATCH_SLOTS
        invariant forall j :: 0 <= j < index ==>
          !(slots[j].state == BatchFree && slots[j].generation < BATCH_GENERATION_MAX)
      {
        index := index + 1;
      }
      if index == BATCH_SLOTS { return BatchNoSlot, 0; }
      var generation := slots[index].generation + 1;
      var free := BatchSlot(generation, BatchFree, NO_BACKEND, NO_BACKEND, [], EMPTY_JFT);
      slots := slots[index := free.(state := Preparing, context := context, adapter := registry.identity)];
      ghost var reserved := slots;
      ghost var slots0 := registry.slots;
      var entries, child := [], [];
      InheritStarts(slots0, jft);
      for i := 0 to JFT_ENTRIES
        invariant registry.Valid() && registry.failures == old(registry.failures)
        invariant registry.closings == old(registry.closings)
        invariant Inheriting(slots0, registry.slots, jft, i, entries)
        invariant child == ChildJft(slots0, jft)[..i] && slots == reserved && (entries != [] ==> context == registry.context)
      {
        var ok, inherited;
        ok, inherited, entries := InheritByte(registry, context, jft, i, entries, slots0);
        if !ok {
          status := FailPrepare(registry, context, index, entries, true);
          return status, 0;
        }
        ChildByte(slots0, jft, i);
        child := child + [inherited];
      }
      InheritEnds(slots0, registry.slots, jft, entries);
      InheritanceMeaning(slots0, jft);
      InheritUndo(slots0, registry.slots, jft, JFT_ENTRIES, entries);
      BatchHandleRoundTrip(index, generation);
      handle := MakeBatchHandle(index, generation);
      slots := slots[index := BatchSlot(generation, Prepared, context, registry.identity, entries, child)];
      assert ResolveHandle(handle) == BatchFound(BatchOk, index);
      return BatchOk, handle;
    }

    function CopyChildJft(handle: nat): (r: (BatchStatus, seq<byte>))
      requires Valid()
      reads this
      ensures var found := ResolveHandle(handle);
        && (r.0 == BatchOk <==> found.status == BatchOk && slots[found.index].state in {Prepared, Committed})
        && (r.0 == BatchOk ==> r.1 == slots[found.index].child)
        && (r.0 == BatchIsPoisoned <==> found.status == BatchOk && slots[found.index].state == BatchPoisoned)
    {
      var found := ResolveHandle(handle);
      if found.status != BatchOk then (found.status, EMPTY_JFT)
      else var slot := slots[found.index];
           if slot.state == BatchPoisoned then (BatchIsPoisoned, EMPTY_JFT)
           else if slot.state != Prepared && slot.state != Committed then (BatchInvalidState, EMPTY_JFT)
           else (BatchOk, slot.child)
    }

    function PreflightCommit(handle: nat): (status: BatchStatus)
      requires Valid()
      reads this
      ensures status == BatchOk <==>
        var found := ResolveHandle(handle); found.status == BatchOk && slots[found.index].state == Prepared
    {
      var found := ResolveHandle(handle);
      if found.status != BatchOk then found.status
      else if slots[found.index].state == BatchPoisoned then BatchIsPoisoned
      else if slots[found.index].state != Prepared then BatchInvalidState
      else BatchOk
    }

    /** Leave the references with the child; allowed twice. */
    method Commit(handle: nat) returns (status: BatchStatus)
      requires Valid()
      modifies this`slots
      ensures Valid()
      ensures var found := old(ResolveHandle(handle));
        status == BatchOk <==> found.status == BatchOk && old(slots)[found.index].state in {Prepared, Committed}
      ensures var index := old(ResolveHandle(handle)).index;
        slots == if status == BatchOk then old(slots)[index := old(slots)[index].(state := Committed)] else old(slots)
    {
      var found := ResolveHandle(handle);
      if found.status != BatchOk { return found.status; }
      if slots[found.index].state == Committed {
        assert slots == slots[found.index := slots[found.index].(state := Committed)];
        return BatchOk;
      }
      status := PreflightCommit(handle);
      if status != BatchOk { return; }
      slots := slots[found.index := slots[found.index].(state := Committed)];
    }

    /** Give every inherited reference back; allowed twice. */
    method Abort(handle: nat, registry: Registry, context: nat) returns (status: BatchStatus)
      requires Valid() && registry.Valid()
      modifies this`slots, registry`slots, registry`closed, registry`closings, registry`failures
      ensures Valid() && registry.Valid() && registry.failures >= old(registry.failures)
      ensures var found := old(ResolveHandle(handle));
        && (found.status != BatchOk ==> status == found.status)
        && (found.status == BatchOk && old(slots)[found.index].state == BatchPoisoned ==>
              status == BatchIsPoisoned && slots == old(slots) && registry.slots == old(registry.slots))
        && (found.status == BatchOk && old(slots)[found.index].state != BatchPoisoned ==>
              var slot := old(slots)[found.index];
              if context != slot.context || registry.identity != slot.adapter then status == BatchInvalidArgument
              else match slot.state
                case Committed => status == AlreadyCommitted
                case BatchAborted => status == BatchOk
                case Prepared => status in {BatchOk, BatchIsPoisoned} || registry.identity == 0xffff_ffff_ffff_ffff
                case _ => status == BatchInvalidState)
        && (status == BatchOk && old(slots)[found.index].state == Prepared ==> registry.identity != 0xffff_ffff_ffff_ffff)
        && (status == BatchOk ==>
              && found.status == BatchOk && old(slots)[found.index].state in {Prepared, BatchAborted}
              && slots == old(slots)[found.index := slots[found.index]]
              && slots[found.index].state == BatchAborted
              && slots[found.index].generation == old(slots)[found.index].generation)
      ensures var found := old(ResolveHandle(handle));
        found.status == BatchOk && Returnable(old(slots)[found.index], old(registry.slots), registry, context) ==>
          var list := Sfns(old(slots)[found.index].entries);
          && (status == BatchOk || registry.failures > old(registry.failures))
          && (Closings(old(registry.slots), list) == [] ==> status == BatchOk && registry.failures == old(registry.failures))
          && (status == BatchOk ==>
                && registry.slots == DropAll(old(registry.slots), list)
                && registry.closings == old(registry.closings) + Closings(old(registry.slots), list))
      ensures status != BatchOk && status != BatchIsPoisoned ==> slots == old(slots) && registry.slots == old(registry.slots)
      ensures var found := old(ResolveHandle(handle));
        status == BatchOk && old(slots)[found.index].state == BatchAborted ==>
          slots == old(slots) && registry.slots == old(registry.slots) && registry.closings == old(registry.closings)
      ensures var found := old(ResolveHandle(handle));
        status == BatchIsPoisoned ==>
          && found.status == BatchOk && old(slots)[found.index].state in {Prepared, BatchPoisoned}
          && slots == old(slots)[found.index := slots[found.index]] && slots[found.index].state == BatchPoisoned
    {
      hide Lifetimes, Sfns, EntriesName, Covered, DropAll, Closings, BatchHandleSlot, BatchHandleGeneration;
      var found := ResolveHandle(handle);
      if found.status != BatchOk { return found.status; }
      var slot := slots[found.index];
      if slot.state == BatchPoisoned {
        assert slots == slots[found.index := slot];
        return BatchIsPoisoned;
      }
      if context != slot.context || registry.identity != slot.adapter { return BatchInvalidArgument; }
      if slot.state == Committed { return AlreadyCommitted; }
      if slot.state == BatchAborted {
        assert slots == slots[found.index := slot];
        return BatchOk;
      }
      if slot.state != Prepared { return BatchInvalidState; }
      if registry.identity == NO_BACKEND { return BatchInvalidArgument; }
      ghost var good := Returnable(slot, registry.slots, registry, context);
      var ok, left := UnwindEntries(registry, context, slot.entries, good);
      slots := slots[found.index := slot.(state := if ok then BatchAborted else BatchPoisoned, entries := left)];
      return if ok then BatchOk else BatchIsPoisoned;
    }

    /** Recycle a finished batch. */
    method Retire(handle: nat) returns (status: BatchStatus)
      requires Valid()
      modifies this`slots
      ensures Valid()
      ensures var found := old(ResolveHandle(handle));
        && (status == BatchOk <==> found.status == BatchOk && old(slots)[found.index].state in {BatchAborted, Committed})
        && (status == BatchIsPoisoned <==> found.status == BatchOk && old(slots)[found.index].state == BatchPoisoned)
      ensures var index := old(ResolveHandle(handle)).index;
        slots == if status == BatchOk
                 then old(slots)[index := BatchSlot(old(slots)[index].generation, BatchFree, NO_BACKEND, NO_BACKEND, [],
                                                    EMPTY_JFT)]
                 else old(slots)
    {
      hide BatchHandleSlot, BatchHandleGeneration;
      var found := ResolveHandle(handle);
      if found.status != BatchOk { return found.status; }
      var slot := slots[found.index];
      if slot.state == BatchPoisoned { return BatchIsPoisoned; }
      if slot.state != BatchAborted && slot.state != Committed { return BatchInvalidState; }
      slots := slots[found.index := BatchSlot(slot.generation, BatchFree, NO_BACKEND, NO_BACKEND, [], EMPTY_JFT)];
      return BatchOk;
    }
  }

  /** The references of a prepared batch are all still there to be given back. */
  ghost predicate Returnable(slot: BatchSlot, sft: Slots, registry: Registry, context: nat) {
    && slot.state == Prepared && slot.context == context == registry.context && slot.adapter == registry.identity != NO_BACKEND
    && EntriesName(sft, slot.entries) && Covered(sft, Sfns(slot.entries))
  }

  lemma {:induction false} UnwindEnds(slots0: Slots, slots: Slots, entries: seq<Entry>, closings0: seq<byte>,
                                      closings: seq<byte>)
    requires Unwinding(slots0, slots, entries, 0, closings0, closings)
    ensures Covered(slots0, Sfns(entries)) && slots == DropAll(slots0, Sfns(entries))
    ensures closings == closings0 + Closings(slots0, Sfns(entries))
  {
    assert entries[..0] == [] && closings + [] == closings;
  }

  lemma {:induction false} ChildByte(slots: Slots, jft: seq<byte>, i: nat)
    requires i < |jft|
    ensures ChildJft(slots, jft)[..i + 1] == ChildJft(slots, jft)[..i] +
      [if jft[i] != JFT_UNUSED && Inherits(slots[jft[i]]) then jft[i] else JFT_UNUSED]
    ensures i + 1 == |jft| ==> ChildJft(slots, jft)[..i + 1] == ChildJft(slots, jft)
  {
  }

  lemma {:induction false} NothingDone(slots: Slots, entries: seq<Entry>, e: Entry)
    requires EntriesName(slots, entries) && !e.acquired && !e.deviceOpen
    ensures EntriesName(slots, entries + [e]) && Sfns(entries + [e]) == Sfns(entries)
  {
    assert (entries + [e])[..|entries|] == entries;
  }
}

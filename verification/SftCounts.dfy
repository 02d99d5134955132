/** Reference counting on system file table slots, as plain values. */
module SftCounts {
  import opened GuestMemory

  const SFT_SLOTS := 256
  const JFT_UNUSED: byte := 0xff
  const SFT_GENERATION_MAX := 0x007f_ffff_ffff_ffff
  const COUNTER_MAX := 0xffff_ffff
  const NO_BACKEND := 0xffff_ffff_ffff_ffff
  const NETWORK: bv16 := 0x8000
  const NO_INHERIT: bv16 := 0x1000
  const SHARING_MASK: bv16 := 0x00f0
  const SHARING_NETWORK_FCB: bv16 := 0x0070

  datatype SftState = FreeSlot | Reserved | Present | PoisonedSlot

  datatype SftSlot = SftSlot(generation: nat, state: SftState, references: nat, opens: nat, flags: bv16, mode: bv16,
                             backend: nat, kind: byte)
  {
    predicate Local() { flags & NETWORK == 0 }

    predicate Inheritable() { flags & NO_INHERIT == 0 && mode & SHARING_MASK != SHARING_NETWORK_FCB }

    predicate Live() { state == Present && references > 0 }

    /** A local file is open in its device once per reference, a network file never. */
    predicate Balanced() { opens == if Local() then references else 0 }

    predicate Counted() { references <= COUNTER_MAX && opens <= COUNTER_MAX && generation <= SFT_GENERATION_MAX }

    function Recycled(): (s: SftSlot) {
      SftSlot(generation, FreeSlot, 0, 0, 0, 0, NO_BACKEND, 0)
    }

    /** One reference more, one reference less. */
    function Up(): (s: SftSlot) {
      this.(references := references + 1, opens := if Local() then opens + 1 else opens)
    }

    function Down(): (s: SftSlot)
      requires references > 0 && (Local() ==> opens > 0)
    {
      this.(references := references - 1, opens := if Local() then opens - 1 else opens)
    }
  }

  /** The flag words: bit 15 marks a network file, bit 12 keeps a file from
      children, and sharing mode 7 is a network FCB. */
  lemma {:induction false} SlotWords(s: SftSlot)
    ensures s.Local() <==> s.flags & 0x8000 == 0
    ensures s.Inheritable() <==> s.flags & 0x1000 == 0 && s.mode & 0x00f0 != 0x0070
    ensures s.Balanced() <==> s.opens == if s.flags & 0x8000 == 0 then s.references else 0
    ensures s.Counted() <==> s.references < 0x1_0000_0000 && s.opens < 0x1_0000_0000 && s.generation < 0x80_0000_0000_0000
    ensures s.Recycled() == SftSlot(s.generation, FreeSlot, 0, 0, 0, 0, 0xffff_ffff_ffff_ffff, 0)
    ensures Droppable(s) <==>
      s.state == Present && 0 < s.references && s.opens == if s.flags & 0x8000 == 0 then s.references else 0
  {
  }

  type Slots = s: seq<SftSlot> | |s| == SFT_SLOTS witness seq(SFT_SLOTS, i => SftSlot(0, FreeSlot, 0, 0, 0, 0, 0, 0))

  function Count(list: seq<byte>, sfn: byte): (n: nat)
    ensures n <= |list|
  {
    if list == [] then 0
    else Count(list[..|list| - 1], sfn) + (if list[|list| - 1] == sfn then 1 else 0)
  }

  // ---------- raising counts ----------

  function Raise(slots: Slots, list: seq<byte>): (after: Slots) {
    if list == [] then slots
    else var before := Raise(slots, list[..|list| - 1]);
         var sfn := list[|list| - 1];
         before[sfn := before[sfn].Up()]
  }

  /** Raising counts means: each slot gains one reference per mention, a local
      one as many device opens, and nothing else changes. */
  lemma {:induction false} RaiseMeaning(slots: Slots, list: seq<byte>, sfn: byte)
    ensures var n := Count(list, sfn);
      Raise(slots, list)[sfn] ==
      slots[sfn].(references := slots[sfn].references + n,
                  opens := if slots[sfn].Local() then slots[sfn].opens + n else slots[sfn].opens)
    decreases |list|
  {
    if list != [] {
      RaiseMeaning(slots, list[..|list| - 1], sfn);
    }
  }

  lemma {:induction false} RaiseBeyond(slots: Slots, list: seq<byte>)
    requires JFT_UNUSED !in list
    ensures Raise(slots, list)[JFT_UNUSED] == slots[JFT_UNUSED]
    decreases |list|
  {
    if list != [] {
      RaiseBeyond(slots, list[..|list| - 1]);
    }
  }

  // ---------- giving references back ----------

  /** Give one reference back; the last one frees the slot. */
  function Drop(slots: Slots, sfn: byte): (after: Slots)
    requires Droppable(slots[sfn])
  {
    slots[sfn := if slots[sfn].references == 1 then slots[sfn].Recycled() else slots[sfn].Down()]
  }

  predicate Droppable(s: SftSlot) {
    s.state == Present && s.references > 0 && s.Balanced()
  }

  /** Every reference on the list is there to be given back. */
  ghost predicate Covered(slots: Slots, list: seq<byte>) {
    forall sfn: byte :: Count(list, sfn) > 0 ==> Droppable(slots[sfn]) && Count(list, sfn) <= slots[sfn].references
  }

  /** Give the references back from the last to the first. */
  function DropAll(slots: Slots, list: seq<byte>): (after: Slots)
    requires Covered(slots, list)
    decreases |list|
  {
    if list == [] then slots
    else CoveredStep(slots, list);
         DropAll(Drop(slots, list[|list| - 1]), list[..|list| - 1])
  }

  /** The slots whose backend has to be closed on the way. */
  function Closings(slots: Slots, list: seq<byte>): (closed: seq<byte>)
    requires Covered(slots, list)
    decreases |list|
  {
    if list == [] then []
    else CoveredStep(slots, list);
         var sfn := list[|list| - 1];
         (if slots[sfn].references == 1 then [sfn] else []) + Closings(Drop(slots, sfn), list[..|list| - 1])
  }

  lemma {:induction false} CoveredStep(slots: Slots, list: seq<byte>)
    requires Covered(slots, list) && list != []
    ensures Droppable(slots[list[|list| - 1]])
    ensures Covered(Drop(slots, list[|list| - 1]), list[..|list| - 1])
  {
    var last, rest := list[|list| - 1], list[..|list| - 1];
    assert Count(list, last) > 0;
    forall sfn: byte | Count(rest, sfn) > 0
      ensures Droppable(Drop(slots, last)[sfn]) && Count(rest, sfn) <= Drop(slots, last)[sfn].references
    {
      assert Count(list, sfn) > 0;
    }
  }

  /** What is left after giving the list back: its count taken off, and a slot
      whose count reached zero is free. */
  lemma {:induction false} DropAllMeaning(slots: Slots, list: seq<byte>, sfn: byte)
    requires Covered(slots, list)
    ensures var n := Count(list, sfn);
      DropAll(slots, list)[sfn] ==
        if n == 0 then slots[sfn]
        else if n == slots[sfn].references then slots[sfn].Recycled()
        else slots[sfn].(references := slots[sfn].references - n,
                         opens := if slots[sfn].Local() then slots[sfn].references - n else slots[sfn].opens)
    decreases |list|
  {
    if list != [] {
      CoveredStep(slots, list);
      var last, rest := list[|list| - 1], list[..|list| - 1];
      DropAllMeaning(Drop(slots, last), rest, sfn);
      assert Count(list, sfn) > 0 ==> Count(list, sfn) <= slots[sfn].references;
    }
  }

  /** A backend is closed exactly when the count of its slot reaches zero, and
      then once. */
  lemma {:induction false} ClosingsMeaning(slots: Slots, list: seq<byte>, sfn: byte)
    requires Covered(slots, list)
    ensures Count(Closings(slots, list), sfn) == if 0 < Count(list, sfn) == slots[sfn].references then 1 else 0
    decreases |list|
  {
    if list != [] {
      CoveredStep(slots, list);
      var last, rest := list[|list| - 1], list[..|list| - 1];
      var tail := Closings(Drop(slots, last), rest);
      ClosingsMeaning(Drop(slots, last), rest, sfn);
      assert Count(list, sfn) > 0 ==> Count(list, sfn) <= slots[sfn].references;
      if slots[last].references == 1 { CountCons(last, tail, sfn); }
      assert [] + tail == tail;
    }
  }

  lemma {:induction false} CountCons(x: byte, list: seq<byte>, sfn: byte)
    ensures Count([x] + list, sfn) == Count(list, sfn) + (if x == sfn then 1 else 0)
    decreases |list|
  {
    if list == [] {
      assert ([x] + list)[..0] == [];
    } else {
      assert ([x] + list)[..|list|] == [x] + list[..|list| - 1];
      CountCons(x, list[..|list| - 1], sfn);
    }
  }

  /** Giving back what was just raised restores every slot and closes nothing. */
  lemma {:induction false} RaiseThenDrop(slots: Slots, list: seq<byte>)
    requires forall sfn: byte :: Count(list, sfn) > 0 ==> Droppable(slots[sfn])
    ensures Covered(Raise(slots, list), list)
    ensures DropAll(Raise(slots, list), list) == slots
    ensures Closings(Raise(slots, list), list) == []
    decreases |list|
  {
    var raised := Raise(slots, list);
    forall sfn: byte | Count(list, sfn) > 0
      ensures Droppable(raised[sfn]) && Count(list, sfn) <= raised[sfn].references
    {
      RaiseMeaning(slots, list, sfn);
    }
    if list != [] {
      var last, rest := list[|list| - 1], list[..|list| - 1];
      forall sfn: byte | Count(rest, sfn) > 0
        ensures Droppable(slots[sfn])
      {
        assert Count(list, sfn) > 0;
      }
      RaiseThenDrop(slots, rest);
      RaiseMeaning(slots, rest, last);
      assert Count(list, last) > 0;
      assert Drop(raised, last) == Raise(slots, rest);
    }
  }
}

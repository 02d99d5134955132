/** The books of the file system: reference counts against the places that
    hold references. */
module FileTally {
  import opened GuestMemory
  import opened SftCounts
  import opened SftRegistry
  import opened SftBatch

  /** How often live job file tables name a slot. */
  function Total(jfts: seq<seq<byte>>, sfn: byte): (n: nat) {
    if jfts == [] then 0 else Total(jfts[..|jfts| - 1], sfn) + Count(jfts[|jfts| - 1], sfn)
  }

  /** How many references prepared batches hold on a slot. */
  function Pending(batches: seq<BatchSlot>, sfn: byte): (n: nat) {
    if batches == [] then 0
    else Pending(batches[..|batches| - 1], sfn) + PendingIn(batches[|batches| - 1], sfn)
  }

  function PendingIn(batch: BatchSlot, sfn: byte): (n: nat) {
    if batch.state == Prepared then Count(Sfns(batch.entries), sfn) else 0
  }

  /** Every count is accounted for, every local device open too, and a slot is
      in use exactly while its count is not zero. */
  ghost predicate Tallied(slots: Slots, jfts: seq<seq<byte>>, batches: seq<BatchSlot>) {
    forall sfn: byte :: sfn != JFT_UNUSED ==> TalliedAt(slots[sfn], jfts, batches, sfn)
  }

  ghost predicate TalliedAt(slot: SftSlot, jfts: seq<seq<byte>>, batches: seq<BatchSlot>, sfn: byte) {
    && slot.references == Total(jfts, sfn) + Pending(batches, sfn) && slot.Balanced()
    && slot.state == if slot.references > 0 then Present else FreeSlot
  }

  /** Prepared batches of this registry, naming files that are open. */
  ghost predicate BatchesSound(slots: Slots, batches: seq<BatchSlot>, context: nat, identity: nat) {
    && (forall i :: 0 <= i < |batches| ==> batches[i].state != BatchPoisoned)
    && (forall i :: 0 <= i < |batches| && batches[i].state == Prepared ==>
          && EntriesName(slots, batches[i].entries) && Sfns(batches[i].entries) == Used(batches[i].child)
          && batches[i].context == context && batches[i].adapter == identity
          && |batches[i].child| == JFT_ENTRIES)
  }

  // ---------- sums ----------

  lemma {:induction false} CountUpdate(list: seq<byte>, i: nat, b: byte, sfn: byte)
    requires i < |list|
    ensures Count(list[i := b], sfn) + (if list[i] == sfn then 1 else 0) == Count(list, sfn) + (if b == sfn then 1 else 0)
    decreases |list|
  {
    var n := |list| - 1;
    if i < n {
      assert list[i := b][..n] == list[..n][i := b];
      CountUpdate(list[..n], i, b, sfn);
    } else {
      assert list[i := b][..n] == list[..n];
    }
  }

  lemma {:induction false} TotalUpdate(jfts: seq<seq<byte>>, p: nat, jft: seq<byte>, sfn: byte)
    requires p < |jfts|
    ensures Total(jfts[p := jft], sfn) + Count(jfts[p], sfn) == Total(jfts, sfn) + Count(jft, sfn)
    decreases |jfts|
  {
    var n := |jfts| - 1;
    if p < n {
      assert jfts[p := jft][..n] == jfts[..n][p := jft];
      TotalUpdate(jfts[..n], p, jft, sfn);
    } else {
      assert jfts[p := jft][..n] == jfts[..n];
    }
  }

  /** Change one byte of one table. */
  function Poke(jfts: seq<seq<byte>>, p: nat, jfn: nat, b: byte): (after: seq<seq<byte>>)
    requires p < |jfts| && jfn < |jfts[p]|
    ensures |after| == |jfts|
  {
    var jft: seq<byte> := jfts[p][jfn := b];
    jfts[p := jft]
  }

  function Remove<T>(s: seq<T>, p: nat): (after: seq<T>)
    requires p < |s|
    ensures |after| == |s| - 1
  {
    s[..p] + s[p + 1..]
  }

  lemma {:induction false} TotalRemove(jfts: seq<seq<byte>>, p: nat, sfn: byte)
    requires p < |jfts|
    ensures Total(Remove(jfts, p), sfn) + Count(jfts[p], sfn) == Total(jfts, sfn)
    decreases |jfts|
  {
    var n, after := |jfts| - 1, Remove(jfts, p);
    if p < n {
      assert after[..n - 1] == Remove(jfts[..n], p) && after[n - 1] == jfts[n];
      TotalRemove(jfts[..n], p, sfn);
    } else {
      assert after == jfts[..n];
    }
  }

  lemma {:induction false} TotalAppend(jfts: seq<seq<byte>>, jft: seq<byte>, sfn: byte)
    ensures Total(jfts + [jft], sfn) == Total(jfts, sfn) + Count(jft, sfn)
  {
    assert (jfts + [jft])[..|jfts|] == jfts;
  }

  lemma {:induction false} TotalAtLeast(jfts: seq<seq<byte>>, p: nat, sfn: byte)
    requires p < |jfts|
    ensures Count(jfts[p], sfn) <= Total(jfts, sfn)
  {
    TotalRemove(jfts, p, sfn);
  }

  lemma {:induction false} PendingUpdate(batches: seq<BatchSlot>, i: nat, batch: BatchSlot, sfn: byte)
    requires i < |batches|
    ensures Pending(batches[i := batch], sfn) + PendingIn(batches[i], sfn) == Pending(batches, sfn) + PendingIn(batch, sfn)
    decreases |batches|
  {
    var n := |batches| - 1;
    if i < n {
      assert batches[i := batch][..n] == batches[..n][i := batch];
      PendingUpdate(batches[..n], i, batch, sfn);
    } else {
      assert batches[i := batch][..n] == batches[..n];
    }
  }

  lemma {:induction false} PendingAtLeast(batches: seq<BatchSlot>, i: nat, sfn: byte)
    requires i < |batches|
    ensures PendingIn(batches[i], sfn) <= Pending(batches, sfn)
  {
    PendingUpdate(batches, i, batches[i].(state := BatchFree), sfn);
  }

  // ---------- what a tally guarantees ----------

  lemma {:induction false} JftCovered(slots: Slots, jfts: seq<seq<byte>>, batches: seq<BatchSlot>, p: nat)
    requires Tallied(slots, jfts, batches) && p < |jfts|
    ensures Covered(slots, Used(jfts[p]))
  {
    var list := Used(jfts[p]);
    forall sfn: byte | Count(list, sfn) > 0
      ensures Droppable(slots[sfn]) && Count(list, sfn) <= slots[sfn].references
    {
      UsedCounts(jfts[p], sfn);
      TotalAtLeast(jfts, p, sfn);
      assert TalliedAt(slots[sfn], jfts, batches, sfn);
    }
  }

  lemma {:induction false} BatchCovered(slots: Slots, jfts: seq<seq<byte>>, batches: seq<BatchSlot>, i: nat)
    requires Tallied(slots, jfts, batches) && i < |batches| && batches[i].state == Prepared
    requires JFT_UNUSED !in Sfns(batches[i].entries)
    ensures Covered(slots, Sfns(batches[i].entries))
  {
    var list := Sfns(batches[i].entries);
    forall sfn: byte | Count(list, sfn) > 0
      ensures Droppable(slots[sfn]) && Count(list, sfn) <= slots[sfn].references
    {
      CountIn(list, sfn);
      PendingAtLeast(batches, i, sfn);
      assert TalliedAt(slots[sfn], jfts, batches, sfn);
    }
  }

  lemma {:induction false} CountIn(list: seq<byte>, sfn: byte)
    requires Count(list, sfn) > 0
    ensures sfn in list
    decreases |list|
  {
    if list[|list| - 1] != sfn { CountIn(list[..|list| - 1], sfn); }
  }

  lemma {:induction false} UsedIsUsed(jft: seq<byte>)
    ensures JFT_UNUSED !in Used(jft)
    decreases |jft|
  {
    if jft != [] { UsedIsUsed(jft[..|jft| - 1]); }
  }

  /** Prepared batches stay sound while the files they name stay open. */
  lemma {:induction false} BatchesKept(slots: Slots, slots': Slots, jfts': seq<seq<byte>>, batches: seq<BatchSlot>,
                                       context: nat, identity: nat)
    requires BatchesSound(slots, batches, context, identity) && Tallied(slots', jfts', batches)
    requires forall sfn: byte :: SameLife(slots[sfn], slots'[sfn])
    ensures BatchesSound(slots', batches, context, identity)
  {
    forall i | 0 <= i < |batches| && batches[i].state == Prepared
      ensures EntriesName(slots', batches[i].entries)
    {
      var entries := batches[i].entries;
      forall j | 0 <= j < |entries|
        ensures EntryNames(slots', entries[j])
      {
        assert EntryNames(slots, entries[j]);
        if entries[j].acquired {
          SfnsCount(entries, j);
          PendingAtLeast(batches, i, entries[j].sfn);
          assert TalliedAt(slots'[entries[j].sfn], jfts', batches, entries[j].sfn);
          assert SameLife(slots[entries[j].sfn], slots'[entries[j].sfn]);
        }
      }
    }
  }

  /** As long as a slot is in use at both ends it is the same file. */
  ghost predicate SameLife(s: SftSlot, s': SftSlot) {
    s.state == Present && s'.references > 0 ==>
      s'.state == Present && s'.generation == s.generation && s'.Local() == s.Local()
  }

  // ---------- the steps ----------

  lemma {:induction false} TallyOpen(slots: Slots, jfts: seq<seq<byte>>, batches: seq<BatchSlot>, p: nat, jfn: nat,
                                     sfn: byte, s: SftSlot)
    requires Tallied(slots, jfts, batches) && p < |jfts| && jfn < |jfts[p]| && jfts[p][jfn] == JFT_UNUSED
    requires sfn != JFT_UNUSED && slots[sfn].state == FreeSlot && s.state == Present && s.references == 1 && s.Balanced()
    ensures Tallied(slots[sfn := s], Poke(jfts, p, jfn, sfn), batches)
  {
    hide Total, Pending;
    var jfts', slots' := Poke(jfts, p, jfn, sfn), slots[sfn := s];
    forall other: byte | other != JFT_UNUSED
      ensures TalliedAt(slots'[other], jfts', batches, other)
    {
      assert TalliedAt(slots[other], jfts, batches, other);
      TotalUpdate(jfts, p, jfts[p][jfn := sfn], other);
      CountUpdate(jfts[p], jfn, sfn, other);
    }
  }

  /** A free slot that only grew older. */
  lemma {:induction false} TallyIdle(slots: Slots, jfts: seq<seq<byte>>, batches: seq<BatchSlot>, sfn: byte, s: SftSlot)
    requires Tallied(slots, jfts, batches) && slots[sfn].state == FreeSlot
    requires s.state == FreeSlot && s.references == 0 && s.opens == 0
    ensures Tallied(slots[sfn := s], jfts, batches)
  {
    hide Total, Pending;
    var slots' := slots[sfn := s];
    forall other: byte | other != JFT_UNUSED
      ensures TalliedAt(slots'[other], jfts, batches, other)
    {
      assert TalliedAt(slots[other], jfts, batches, other);
    }
  }

  lemma {:induction false} PendingSame(batches: seq<BatchSlot>, batches': seq<BatchSlot>, sfn: byte)
    requires |batches'| == |batches|
    requires forall i :: 0 <= i < |batches| ==> batches'[i].state == batches[i].state
    requires forall i :: 0 <= i < |batches| && batches[i].state != BatchFree ==> batches'[i] == batches[i]
    ensures Pending(batches', sfn) == Pending(batches, sfn)
    decreases |batches|
  {
    if batches != [] {
      var n := |batches| - 1;
      PendingSame(batches[..n], batches'[..n], sfn);
    }
  }

  /** Free batches that only grew older. */
  lemma {:induction false} TallyIdleBatches(slots: Slots, jfts: seq<seq<byte>>, batches: seq<BatchSlot>,
                                            batches': seq<BatchSlot>, context: nat, identity: nat)
    requires Tallied(slots, jfts, batches) && |batches'| == |batches| && BatchesSound(slots, batches, context, identity)
    requires forall i :: 0 <= i < |batches| ==> batches'[i].state == batches[i].state
    requires forall i :: 0 <= i < |batches| && batches[i].state != BatchFree ==> batches'[i] == batches[i]
    ensures Tallied(slots, jfts, batches') && BatchesSound(slots, batches', context, identity)
  {
    hide Total, Pending, EntriesName, Sfns, Used;
    forall sfn: byte | sfn != JFT_UNUSED
      ensures TalliedAt(slots[sfn], jfts, batches', sfn)
    {
      assert TalliedAt(slots[sfn], jfts, batches, sfn);
      PendingSame(batches, batches', sfn);
    }
  }

  lemma {:induction false} TallyClose(slots: Slots, jfts: seq<seq<byte>>, batches: seq<BatchSlot>, p: nat, jfn: nat)
    requires Tallied(slots, jfts, batches) && p < |jfts| && jfn < |jfts[p]| && jfts[p][jfn] != JFT_UNUSED
    requires Droppable(slots[jfts[p][jfn]])
    ensures Tallied(Drop(slots, jfts[p][jfn]), Poke(jfts, p, jfn, JFT_UNUSED), batches)
  {
    hide Total, Pending;
    var sfn := jfts[p][jfn];
    var jfts', slots' := Poke(jfts, p, jfn, JFT_UNUSED), Drop(slots, sfn);
    forall other: byte | other != JFT_UNUSED
      ensures TalliedAt(slots'[other], jfts', batches, other)
    {
      assert TalliedAt(slots[other], jfts, batches, other);
      TotalUpdate(jfts, p, jfts[p][jfn := JFT_UNUSED], other);
      CountUpdate(jfts[p], jfn, JFT_UNUSED, other);
    }
  }

  lemma {:induction false} TallyPrepare(slots: Slots, jfts: seq<seq<byte>>, batches: seq<BatchSlot>, i: nat, batch: BatchSlot)
    requires Tallied(slots, jfts, batches) && i < |batches| && batches[i].state == BatchFree
    requires batch.state == Prepared && Covered(Raise(slots, Sfns(batch.entries)), Sfns(batch.entries))
    requires forall sfn: byte :: Count(Sfns(batch.entries), sfn) > 0 ==> slots[sfn].Live()
    ensures Tallied(Raise(slots, Sfns(batch.entries)), jfts, batches[i := batch])
  {
    hide Total, Pending, Sfns, Raise;
    var list := Sfns(batch.entries);
    forall sfn: byte | sfn != JFT_UNUSED
      ensures TalliedAt(Raise(slots, list)[sfn], jfts, batches[i := batch], sfn)
    {
      assert TalliedAt(slots[sfn], jfts, batches, sfn);
      PendingUpdate(batches, i, batch, sfn);
      RaiseMeaning(slots, list, sfn);
    }
  }

  lemma {:induction false} TallyCommit(slots: Slots, jfts: seq<seq<byte>>, batches: seq<BatchSlot>, i: nat, batch: BatchSlot)
    requires Tallied(slots, jfts, batches) && i < |batches| && batches[i].state == Prepared && batch.state == Committed
    requires Sfns(batches[i].entries) == Used(batches[i].child)
    ensures Tallied(slots, jfts + [batches[i].child], batches[i := batch])
  {
    hide Total, Pending, Sfns, Used;
    forall sfn: byte | sfn != JFT_UNUSED
      ensures TalliedAt(slots[sfn], jfts + [batches[i].child], batches[i := batch], sfn)
    {
      assert TalliedAt(slots[sfn], jfts, batches, sfn);
      PendingUpdate(batches, i, batch, sfn);
      TotalAppend(jfts, batches[i].child, sfn);
      UsedCounts(batches[i].child, sfn);
    }
  }

  lemma {:induction false} TallyAbort(slots: Slots, jfts: seq<seq<byte>>, batches: seq<BatchSlot>, i: nat, batch: BatchSlot)
    requires Tallied(slots, jfts, batches) && i < |batches| && batches[i].state == Prepared && batch.state != Prepared
    requires Covered(slots, Sfns(batches[i].entries))
    ensures Tallied(DropAll(slots, Sfns(batches[i].entries)), jfts, batches[i := batch])
  {
    hide Total, Pending, Sfns, DropAll;
    var list := Sfns(batches[i].entries);
    forall sfn: byte | sfn != JFT_UNUSED
      ensures TalliedAt(DropAll(slots, list)[sfn], jfts, batches[i := batch], sfn)
    {
      assert TalliedAt(slots[sfn], jfts, batches, sfn);
      PendingUpdate(batches, i, batch, sfn);
      DropAllMeaning(slots, list, sfn);
    }
  }

  lemma {:induction false} TallyTerminate(slots: Slots, jfts: seq<seq<byte>>, batches: seq<BatchSlot>, p: nat)
    requires Tallied(slots, jfts, batches) && p < |jfts| && Covered(slots, Used(jfts[p]))
    ensures Tallied(DropAll(slots, Used(jfts[p])), Remove(jfts, p), batches)
  {
    hide Total, Pending, Used, DropAll, Remove;
    var list := Used(jfts[p]);
    forall sfn: byte | sfn != JFT_UNUSED
      ensures TalliedAt(DropAll(slots, list)[sfn], Remove(jfts, p), batches, sfn)
    {
      assert TalliedAt(slots[sfn], jfts, batches, sfn);
      TotalRemove(jfts, p, sfn);
      UsedCounts(jfts[p], sfn);
      DropAllMeaning(slots, list, sfn);
    }
  }

  lemma {:induction false} TallyRetire(slots: Slots, jfts: seq<seq<byte>>, batches: seq<BatchSlot>, i: nat, batch: BatchSlot)
    requires Tallied(slots, jfts, batches) && i < |batches| && batches[i].state != Prepared && batch.state != Prepared
    ensures Tallied(slots, jfts, batches[i := batch])
  {
    hide Total, Pending, Sfns;
    forall sfn: byte | sfn != JFT_UNUSED
      ensures TalliedAt(slots[sfn], jfts, batches[i := batch], sfn)
    {
      assert TalliedAt(slots[sfn], jfts, batches, sfn);
      PendingUpdate(batches, i, batch, sfn);
    }
  }

  /** With the books in order, a published file's backend has been closed
      exactly when its count reached zero. */
  lemma {:induction false} ClosedAtZero(slots: Slots, jfts: seq<seq<byte>>, batches: seq<BatchSlot>, published: set<FileRef>,
                                        closed: set<FileRef>, r: FileRef)
    requires Tallied(slots, jfts, batches) && Lifetimes(slots, published, closed) && r in published && r.sfn != JFT_UNUSED
    ensures r in closed <==> !(slots[r.sfn].generation == r.generation && Total(jfts, r.sfn) + Pending(batches, r.sfn) > 0)
  {
    hide Total, Pending;
    assert TalliedAt(slots[r.sfn], jfts, batches, r.sfn);
  }
}

/** The record of one launch and the encoding rules every call checks first. */
module ExecSlot {
  import opened GuestMemory
  import opened McbChain
  import opened McbBlocks
  import opened MemoryLease
  import opened MemoryArena
  import opened LeaseSlots
  import opened ProcessRuntime
  import opened ExecSeal
  import opened BackendSession
  import opened ExecState
  import opened MzLoad

  datatype LaunchState =
    | NotBegun
    | Observed
    | FileOpen
    | FileProbed
    | EnvironmentReady
    | EnvironmentBlockReady
    | ImageReady
    | TargetReady
    | ResidentReady
    | ImagePrivate
    | ProcessFileClosed
    | ParentSnapshotReady
    | SftReserved
    | PspPrepared
    | InitialStateReady
    | MemoryStaging
    | GlobalStaged
    | GlobalMemoryReady
    | HandoffReady
    | BackendDormant
    | LaunchFailed
    | Aborting
    | LaunchAborted
    | LaunchPublished
    | LaunchPoisoned

  datatype Mode = Execute | LoadOnly

  type PspImage = s: seq<byte> | |s| == 256 witness seq(256, i => 0)

  datatype Rebinds = NoRebinds | Rebinds(environment: Environment, load: RebindPlan)

  /** Where the image was loaded. */
  datatype Resident = NoResident | ComResident | MzResident(segment: u16, paragraphs: nat)

  /** States from which the launch can still be given up. */
  predicate InPreparation(state: LaunchState) {
    state !in {NotBegun, LaunchAborted, LaunchPublished, LaunchPoisoned}
  }

  predicate CanAbort(state: LaunchState) {
    InPreparation(state) && state != MemoryStaging
  }

  /** States in which nothing has been journalled yet. */
  predicate Unjournalled(state: LaunchState) {
    state in {Observed, FileOpen, FileProbed, EnvironmentReady, EnvironmentBlockReady, ImageReady, TargetReady, ResidentReady,
              ImagePrivate, ProcessFileClosed, ParentSnapshotReady, SftReserved, PspPrepared, InitialStateReady}
  }

  /** The launch's own record: state, resources held and plans made. */
  datatype LaunchSlot = LaunchSlot(state: LaunchState, mode: Mode, parent: Snapshot, arena: ArenaKey, hasFile: bool,
                                   environment: Lease, target: Lease, resident: Resident, hasBatch: bool, batch: nat,
                                   psp: PspImage, rebinds: Rebinds, hasHandoff: bool, handoff: Handoff, hasSession: bool,
                                   session: nat)
  {
    function Held(): (held: set<Block>) { HeldBlocks(environment, target, parent.currentPsp) }

    /** Forget the owner changes, and with them what was built on them. */
    function Unbound(): (slot: LaunchSlot) {
      this.(rebinds := NoRebinds, hasHandoff := false, handoff := NO_HANDOFF, hasSession := false, session := 0)
    }
  }

  const NO_PLAN := RebindPlan(0, NO_ARENA, 0, 0, Rebind(0, 0, 0, []))
  const NO_PARENT := Snapshot(0, 0, FarPointer(0, 0), 0)

  function EmptySlot(): (slot: LaunchSlot) {
    LaunchSlot(NotBegun, Execute, NO_PARENT, NO_ARENA, false, NoLease, NoLease, NoResident, false, 0, seq(256, i => 0),
               NoRebinds, false, NO_HANDOFF, false, 0)
  }

  /** The steps that only read, and where they lead. */
  function ReadingNext(state: LaunchState): (next: LaunchState) {
    match state
    case FileOpen => FileProbed
    case FileProbed => EnvironmentReady
    case EnvironmentBlockReady => ImageReady
    case ProcessFileClosed => ParentSnapshotReady
    case SftReserved => PspPrepared
    case PspPrepared => InitialStateReady
    case _ => state
  }

  /** The states a launch leaves by reading alone. */
  predicate Reading(state: LaunchState) {
    state in {FileOpen, FileProbed, EnvironmentBlockReady, ProcessFileClosed, SftReserved, PspPrepared}
  }

  /** Where it goes from there. */
  predicate ReadOn(state: LaunchState, next: LaunchState) {
    || (state == FileOpen && next == FileProbed) || (state == FileProbed && next == EnvironmentReady)
    || (state == EnvironmentBlockReady && next == ImageReady) || (state == ProcessFileClosed && next == ParentSnapshotReady)
    || (state == SftReserved && next == PspPrepared) || (state == PspPrepared && next == InitialStateReady)
  }

  // ---------- what a call accepts as a launch ----------

  predicate FileEncoded(s: LaunchSlot) {
    && (s.state in {Observed, LaunchAborted} ==> !s.hasFile)
    && (s.state in {Observed, LaunchAborted, LaunchFailed} || s.hasFile)
  }

  predicate LeasesEncoded(s: LaunchSlot) {
    && (s.environment.Leased? ==> s.state !in {Observed, FileOpen, FileProbed, EnvironmentReady, LaunchAborted})
    && (s.target.Leased? ==>
          s.state !in {Observed, FileOpen, FileProbed, EnvironmentReady, EnvironmentBlockReady, ImageReady, LaunchAborted})
    && (s.state in {TargetReady, ResidentReady} ==> s.target.Leased?)
  }

  predicate BatchEncoded(s: LaunchSlot) {
    && (s.hasBatch ==>
          s.state in {SftReserved, PspPrepared, InitialStateReady, MemoryStaging, GlobalStaged, GlobalMemoryReady, HandoffReady,
                      BackendDormant, LaunchFailed, Aborting, LaunchPublished})
    && (s.state == SftReserved ==> s.hasBatch)
  }

  /** A plan hands this lease from the parent to the child. */
  predicate PlanMatches(s: LaunchSlot, plan: RebindPlan, lease: Lease)
    requires s.target.Leased? && lease.Leased?
  {
    && plan.WellFormed() && plan.handle == lease.handle && plan.arena == s.arena && plan.guest == lease.guest
    && plan.paragraphs == lease.paragraphs && plan.value.expected == s.parent.currentPsp
    && plan.value.newOwner == s.target.guest
  }

  predicate RebindsMatch(s: LaunchSlot)
    requires s.rebinds.Rebinds?
  {
    && s.target.Leased? && PlanMatches(s, s.rebinds.load, s.target)
    && (s.environment.Leased? <==> s.rebinds.environment.WithEnvironment?)
    && (s.environment.Leased? ==> PlanMatches(s, s.rebinds.environment.rebind, s.environment))
  }

  /** Owner changes, handoff and session come one after the other, each only in
      the states after it was made.  A failed launch is not among them. */
  predicate PublicationEncoded(s: LaunchSlot) {
    if s.rebinds.NoRebinds? then !s.hasHandoff && !s.hasSession && s.state != GlobalMemoryReady
    else
      && RebindsMatch(s) && (s.mode == LoadOnly ==> !s.hasHandoff && !s.hasSession)
      && (s.hasHandoff ==> s.handoff.childPsp == s.target.guest)
      && (s.mode == Execute && !s.hasHandoff ==> !s.hasSession && s.state in {GlobalMemoryReady, MemoryStaging})
      && (s.mode == Execute && s.hasHandoff && !s.hasSession ==> s.state == HandoffReady)
      && (s.hasSession ==> s.hasHandoff && s.state in {BackendDormant, LaunchPublished})
      && s.state in {GlobalMemoryReady, MemoryStaging, HandoffReady, BackendDormant, LaunchPublished}
  }

  /** The encoding every call insists on before it does anything; a poisoned
      launch is refused before that. */
  predicate Encoded(s: LaunchSlot) {
    if s.state == NotBegun then s == EmptySlot()
    else s.state == LaunchPoisoned || (FileEncoded(s) && LeasesEncoded(s) && BatchEncoded(s) && PublicationEncoded(s))
  }

  /** The one record the calls leave behind and then no longer accept: the
      launch failed with its owner changes still planned. */
  predicate Stuck(s: LaunchSlot) {
    s.state == LaunchFailed && s.rebinds.Rebinds?
  }

  /** States with the load block leased. */
  predicate Located(state: LaunchState) {
    state in {TargetReady, ResidentReady, ImagePrivate, ProcessFileClosed, ParentSnapshotReady} || Inherited(state)
  }

  /** States with the files reserved for the child. */
  predicate Inherited(state: LaunchState) {
    state in {SftReserved, PspPrepared, InitialStateReady, MemoryStaging, GlobalStaged, GlobalMemoryReady, HandoffReady,
              BackendDormant, LaunchPublished}
  }

  /** Blocks and references are only held while the file is, each from its own
      state on; the image lies in the load block; and only a launch that will run
      hands off, with its owner changes planned. */
  predicate Coherent(s: LaunchSlot) {
    && (s.environment.Leased? || s.target.Leased? || s.hasBatch ==> s.hasFile)
    && (Located(s.state) ==> s.target.Leased?) && (Inherited(s.state) ==> s.hasBatch)
    && (s.state in {HandoffReady, BackendDormant} ==> s.mode == Execute && s.rebinds.Rebinds?)
    && (s.state == ResidentReady ==> !s.resident.NoResident?)
    && (s.resident.MzResident? ==>
          s.target.Leased? && s.target.guest + PSP_PARAGRAPHS <= s.resident.segment
          && s.resident.segment + s.resident.paragraphs <= s.target.guest + s.target.paragraphs)
  }

  /** Every record a launch can be in between two calls. */
  predicate Shaped(s: LaunchSlot) {
    (Stuck(s) || Encoded(s)) && (s.state == LaunchPoisoned || Coherent(s))
  }

  /** Giving up, with nothing planned any more. */
  predicate GivingUp(s: LaunchSlot) {
    s.state == Aborting && s.rebinds.NoRebinds? && !s.hasHandoff && !s.hasSession && Coherent(s)
  }

  /** Between calls, exactly the stuck record is refused. */
  lemma {:induction false} RefusedExactly(s: LaunchSlot)
    requires Shaped(s)
    ensures Encoded(s) <==> !Stuck(s)
  {
  }

  // ---------- what the calls make of a record ----------

  /** States in which nothing is planned for the publication yet. */
  predicate Unplanned(state: LaunchState) {
    Unjournalled(state) || state == GlobalStaged
  }

  lemma {:induction false} UnplannedHoldsLittle(s: LaunchSlot)
    requires Shaped(s) && Unplanned(s.state)
    ensures s.rebinds.NoRebinds? && !s.hasHandoff && !s.hasSession
  {
    hide FileEncoded, LeasesEncoded, BatchEncoded, RebindsMatch, Coherent;
  }

  lemma {:induction false} HasTarget(s: LaunchSlot)
    requires Shaped(s) && Located(s.state)
    ensures s.target.Leased? && Coherent(s) && (Inherited(s.state) ==> s.hasBatch)
  {
    hide Encoded;
  }

  lemma {:induction false} Fails(s: LaunchSlot)
    requires Shaped(s) && (Unplanned(s.state) || s.state == MemoryStaging) && s.rebinds.NoRebinds?
    ensures Shaped(s.(state := LaunchFailed)) && !s.hasSession
  {
  }

  lemma {:induction false} Reads(s: LaunchSlot, psp: PspImage)
    requires Shaped(s) && ReadingNext(s.state) != s.state
    ensures Unjournalled(s.state) && Unjournalled(ReadingNext(s.state))
    ensures Shaped(s.(state := ReadingNext(s.state), psp := psp))
  {
  }

  lemma {:induction false} Observes(mode: Mode, parent: Snapshot, arena: ArenaKey)
    ensures Shaped(EmptySlot().(state := Observed, mode := mode, parent := parent, arena := arena))
  {
  }

  lemma {:induction false} WithoutBatch(s: LaunchSlot)
    requires GivingUp(s)
    ensures GivingUp(s.(hasBatch := false))
  {
  }

  lemma {:induction false} Opens(s: LaunchSlot)
    requires Shaped(s) && s.state == Observed
    ensures Shaped(s.(state := FileOpen, hasFile := true)) && !s.hasFile
  {
  }

  lemma {:induction false} TakesEnvironment(s: LaunchSlot, lease: Lease)
    requires Shaped(s) && s.state == EnvironmentReady
    ensures Shaped(s.(state := EnvironmentBlockReady, environment := lease))
      && Shaped(s.(state := LaunchFailed, environment := lease))
    ensures s.environment == NoLease && s.target == NoLease
  {
  }

  lemma {:induction false} TakesTarget(s: LaunchSlot, lease: Lease)
    requires Shaped(s) && s.state == ImageReady && lease.Leased?
    ensures Shaped(s.(state := TargetReady, target := lease)) && s.target == NoLease
  {
  }

  lemma {:induction false} Loads(s: LaunchSlot, resident: Resident)
    requires Shaped(s) && s.state == TargetReady && !resident.NoResident? && Coherent(s.(resident := resident))
    ensures Shaped(s.(state := ResidentReady, resident := resident)) && s.target.Leased?
  {
  }

  lemma {:induction false} Closes(s: LaunchSlot)
    requires Shaped(s)
    ensures s.state == ResidentReady ==>
      Coherent(s) && Shaped(s.(state := ImagePrivate)) && !s.resident.NoResident? && s.target.Leased?
    ensures s.state == ImagePrivate ==> Shaped(s.(state := ProcessFileClosed)) && s.hasFile
  {
  }

  lemma {:induction false} ReservesFiles(s: LaunchSlot, batch: nat)
    requires Shaped(s) && s.state == ParentSnapshotReady
    ensures Shaped(s.(state := SftReserved, hasBatch := true, batch := batch)) && !s.hasBatch
  {
  }

  lemma {:induction false} Stages(s: LaunchSlot)
    requires Shaped(s) && s.state in {InitialStateReady, GlobalStaged}
    ensures Shaped(s.(state := MemoryStaging)) && Shaped(s.(state := GlobalStaged))
    ensures s.rebinds.NoRebinds? && !s.hasHandoff && !s.hasSession
  {
  }

  lemma {:induction false} Plans(s: LaunchSlot, rebinds: Rebinds)
    requires Shaped(s) && s.state == MemoryStaging && s.rebinds.NoRebinds?
    requires rebinds.Rebinds? && s.target.Leased? && RebindsMatch(s.(rebinds := rebinds))
    ensures Shaped(s.(state := GlobalMemoryReady, rebinds := rebinds))
      && RebindsMatch(s.(state := GlobalMemoryReady, rebinds := rebinds))
    ensures !s.hasSession
  {
    hide PlanMatches;
    PlansKept(s.(rebinds := rebinds), s.(state := GlobalMemoryReady, rebinds := rebinds));
  }

  lemma {:induction false} PlansKept(s: LaunchSlot, s': LaunchSlot)
    requires s.rebinds.Rebinds? && RebindsMatch(s)
    requires s'.parent == s.parent && s'.arena == s.arena && s'.target == s.target && s'.environment == s.environment
    requires s'.rebinds == s.rebinds
    ensures RebindsMatch(s')
  {
  }

  lemma {:induction false} HandsOff(s: LaunchSlot, entry: nat)
    requires Shaped(s) && s.mode == Execute && s.state == GlobalMemoryReady
    ensures s.rebinds.Rebinds? && s.target.Leased? && !s.hasSession && !s.hasHandoff
    ensures Shaped(s.(state := MemoryStaging)) && Shaped(s.(state := MemoryStaging).Unbound())
    ensures Shaped(s.(state := HandoffReady, hasHandoff := true, handoff := Handoff(s.target.guest, entry)))
  {
    hide PlanMatches, FileEncoded, LeasesEncoded, BatchEncoded;
    HandoffEncoded(s, entry);
    PlansKept(s, s.(state := MemoryStaging));
    PlansKept(s, s.(state := HandoffReady, hasHandoff := true, handoff := Handoff(s.target.guest, entry)));
  }

  lemma {:induction false} HandoffEncoded(s: LaunchSlot, entry: nat)
    requires Shaped(s) && s.mode == Execute && s.state == GlobalMemoryReady
    ensures var staging, guest := s.(state := MemoryStaging), if s.target.Leased? then s.target.guest else 0;
      var ready := s.(state := HandoffReady, hasHandoff := true, handoff := Handoff(guest, entry));
      && FileEncoded(staging) && LeasesEncoded(staging) && BatchEncoded(staging)
      && FileEncoded(staging.Unbound()) && LeasesEncoded(staging.Unbound()) && BatchEncoded(staging.Unbound())
      && FileEncoded(ready) && LeasesEncoded(ready) && BatchEncoded(ready)
  {
    hide PublicationEncoded;
  }

  /** A session can be had, and if the backend answers nonsense instead, the
      record left behind is the stuck one. */
  lemma {:induction false} AsksBackend(s: LaunchSlot, session: nat)
    requires Shaped(s) && s.mode == Execute && s.state == HandoffReady && s.hasHandoff
    ensures s.rebinds.Rebinds? && !s.hasSession
    ensures Shaped(s.(state := BackendDormant, hasSession := true, session := session))
    ensures Shaped(s.(state := LaunchFailed)) && Stuck(s.(state := LaunchFailed))
  {
    hide PlanMatches;
    PlansKept(s, s.(state := BackendDormant, hasSession := true, session := session));
  }

  /** A launch that waits for its publication has everything it needs for it. */
  lemma {:induction false} Publishes(s: LaunchSlot)
    requires Shaped(s) && (s.state == BackendDormant || (s.mode == LoadOnly && s.state == GlobalMemoryReady))
    ensures s.rebinds.Rebinds? && RebindsMatch(s) && s.hasBatch && s.target.Leased? && Shaped(s.(state := LaunchPublished))
    ensures s.state == BackendDormant ==> s.mode == Execute && s.hasSession && s.handoff.childPsp == s.target.guest
  {
    hide PlanMatches, FileEncoded, LeasesEncoded, BatchEncoded;
    PlansKept(s, s.(state := LaunchPublished));
    PublishedEncoded(s);
  }

  lemma {:induction false} PublishedEncoded(s: LaunchSlot)
    requires Shaped(s) && s.state in {BackendDormant, GlobalMemoryReady}
    ensures FileEncoded(s.(state := LaunchPublished)) && LeasesEncoded(s.(state := LaunchPublished))
    ensures BatchEncoded(s.(state := LaunchPublished))
  {
    hide PublicationEncoded;
  }

  /** What can be given up, and what is then left to give back. */
  lemma {:induction false} GivesUp(s: LaunchSlot)
    requires Shaped(s) && InPreparation(s.state) && !Stuck(s)
    ensures Encoded(s)
    ensures var t := s.(state := Aborting, hasSession := false, session := 0);
      Coherent(t) && (t.rebinds.NoRebinds? ==> !t.hasHandoff)
        && (s.hasSession ==> s.state == BackendDormant && s.rebinds.Rebinds?)
  {
    hide RebindsMatch, FileEncoded, LeasesEncoded, BatchEncoded;
  }

  lemma {:induction false} GivingUpIsShaped(s: LaunchSlot)
    requires GivingUp(s)
    ensures s.hasFile ==> Shaped(s)
    ensures s.environment == NoLease && s.target == NoLease && !s.hasBatch && !s.hasFile ==> Shaped(s.(state := LaunchAborted))
  {
  }
}

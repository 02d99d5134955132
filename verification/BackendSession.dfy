/** Execution sessions of a CPU backend: prepared dormant, made runnable by a
    publication, run from event to event, stopped and retired. */
module BackendSession {
  import opened GuestMemory

  const SESSION_SLOTS := 4
  const SESSION_HANDLE_SLOTS := 8
  const SESSION_GENERATION_MAX := 0x1fff_ffff_ffff_ffff

  datatype SessionStatus =
    | SessionOk
    | SessionInvalidArgument
    | SessionNoSlot
    | SessionStaleHandle
    | SessionInvalidState
    | SessionMismatch
    | IdentityMismatch
    | ContextMismatch
    | MachineMismatch
    | PrepareRejected
    | ReleaseRetained
    | SessionGenerationExhausted
    | SessionIsPoisoned

  datatype SessionState = SessionVacant | SessionPreparing | Dormant | Runnable | Running | Exited | Stopping | SessionStopped
                        | SessionPoisoned

  /** Entry registers and child of a prepared launch. */
  datatype Handoff = Handoff(childPsp: u16, entry: nat)

  /** The backend and the guest machine a session was prepared for. */
  datatype Binding = Binding(adapter: nat, context: nat, capabilities: nat, machine: nat, machineContext: nat, limit: nat,
                             a20: bool)

  datatype SessionSlot = SessionSlot(generation: nat, state: SessionState, handoff: Handoff, binding: Binding, cpu: nat)

  datatype SessionKey = SessionKey(slot: nat, generation: nat)

  datatype SessionFound = SessionFound(status: SessionStatus, index: nat)

  const NO_HANDOFF := Handoff(0, 0)
  const NO_BINDING := Binding(0, 0, 0, 0, 0, 0, false)

  /** What the backend answers to each of its callbacks; an answer that fits no
      other case is malformed. */
  datatype PrepareAnswer = Built | Declined | BadPrepare
  datatype RunAnswer = Event(cpu: nat, ended: bool) | BadRun
  datatype CommitAnswer = StateTaken | StateRefused | BadCommit
  datatype ReleaseAnswer = LetGo | HeldOn | BadRelease

  function VacantSlot(generation: nat): (slot: SessionSlot) {
    SessionSlot(generation, SessionVacant, NO_HANDOFF, NO_BINDING, 0)
  }

  function MakeSessionHandle(slot: nat, generation: nat): (handle: nat) {
    generation * SESSION_HANDLE_SLOTS + slot + 1
  }

  function SessionHandleSlot(handle: nat): (slot: nat) { handle % SESSION_HANDLE_SLOTS }
  function SessionHandleGeneration(handle: nat): (generation: nat) { handle / SESSION_HANDLE_SLOTS }

  lemma {:induction false} SessionHandleRoundTrip(slot: nat, generation: nat)
    requires slot < SESSION_SLOTS
    ensures SessionHandleSlot(MakeSessionHandle(slot, generation)) == slot + 1
    ensures SessionHandleGeneration(MakeSessionHandle(slot, generation)) == generation
  {
  }

  /** Only a published session is past dormancy, no key is published twice over
      two lives, and the run callback saw published sessions only. */
  ghost predicate Disciplined(slots: seq<SessionSlot>, published: map<SessionKey, Handoff>, ran: seq<SessionKey>) {
    && (forall i :: 0 <= i < |slots| && slots[i].state in {Runnable, Running, Exited} ==>
          SessionKey(i, slots[i].generation) in published
          && published[SessionKey(i, slots[i].generation)] == slots[i].handoff)
    && (forall k :: k in published ==> k.slot < |slots| && k.generation <= slots[k.slot].generation)
    && (forall i :: 0 <= i < |slots| && slots[i].state in {SessionPreparing, Dormant} ==>
          SessionKey(i, slots[i].generation) !in published)
    && (forall k :: k in ran ==> k in published)
  }

  lemma {:induction false} DisciplineReserve(slots: seq<SessionSlot>, published: map<SessionKey, Handoff>,
                                             ran: seq<SessionKey>, i: nat, s: SessionSlot)
    requires Disciplined(slots, published, ran) && i < |slots| && s.generation > slots[i].generation
    requires s.state in {SessionPreparing, Dormant, SessionVacant, SessionPoisoned}
    ensures Disciplined(slots[i := s], published, ran)
  {
  }

  lemma {:induction false} DisciplinePublish(slots: seq<SessionSlot>, published: map<SessionKey, Handoff>,
                                             ran: seq<SessionKey>, i: nat, s: SessionSlot)
    requires Disciplined(slots, published, ran) && i < |slots| && s.generation == slots[i].generation && s.state == Runnable
    requires slots[i].state == Dormant
    ensures Disciplined(slots[i := s], published[SessionKey(i, s.generation) := s.handoff], ran)
  {
  }

  lemma {:induction false} DisciplineMove(slots: seq<SessionSlot>, published: map<SessionKey, Handoff>,
                                          ran: seq<SessionKey>, i: nat, s: SessionSlot)
    requires Disciplined(slots, published, ran) && i < |slots| && s.generation == slots[i].generation
    requires s.state == SessionVacant || s.handoff == slots[i].handoff
    requires s.state in {SessionPoisoned, SessionStopped, Stopping, SessionVacant} || s.state == slots[i].state
      || (slots[i].state in {Runnable, Running} && s.state in {Runnable, Exited})
    ensures Disciplined(slots[i := s], published, ran)
  {
  }

  lemma {:induction false} DisciplineRun(slots: seq<SessionSlot>, published: map<SessionKey, Handoff>, ran: seq<SessionKey>,
                                         i: nat)
    requires Disciplined(slots, published, ran) && i < |slots| && slots[i].state == Runnable
    ensures Disciplined(slots[i := slots[i].(state := Running)], published, ran + [SessionKey(i, slots[i].generation)])
  {
  }

  class Sessions {
    var slots: seq<SessionSlot>
    var poisoned: bool
    /** Sessions ever published, and the sessions the run callback was invoked for. */
    ghost var published: map<SessionKey, Handoff>
    ghost var ran: seq<SessionKey>

    ghost predicate Valid() reads this {
      && |slots| == SESSION_SLOTS && Disciplined(slots, published, ran)
      && forall i :: 0 <= i < |slots| ==> slots[i].generation <= SESSION_GENERATION_MAX
    }

    constructor ()
      ensures Valid() && !poisoned && published == map[] && ran == []
      ensures forall i :: 0 <= i < |slots| ==> slots[i].state == SessionVacant
    {
      slots := seq(SESSION_SLOTS, i => VacantSlot(0));
      poisoned, published, ran := false, map[], [];
    }

    function FindSlot(handle: nat): (found: SessionFound)
      requires Valid()
      reads this
      ensures found.status == SessionOk ==>
        && found.index < SESSION_SLOTS && slots[found.index].state != SessionVacant && !poisoned
        && SessionHandleSlot(handle) == found.index + 1 && SessionHandleGeneration(handle) == slots[found.index].generation
      ensures found.status in {SessionOk, SessionStaleHandle, SessionIsPoisoned}
      ensures found.status == SessionIsPoisoned ==> poisoned
    {
      var slot, generation := SessionHandleSlot(handle), SessionHandleGeneration(handle);
      if poisoned then SessionFound(SessionIsPoisoned, 0)
      else if slot == 0 || slot > SESSION_SLOTS || generation == 0 || slots[slot - 1].generation != generation
              || slots[slot - 1].state == SessionVacant
      then SessionFound(SessionStaleHandle, 0)
      else SessionFound(SessionOk, slot - 1)
    }

    /** A handle finds exactly the session it spells: eight times the generation
        plus the slot's number, counted from one. */
    lemma {:induction false} FoundExactly(handle: nat)
      requires Valid()
      ensures var found := FindSlot(handle);
        && (poisoned <==> found.status == SessionIsPoisoned)
        && (found.status == SessionOk ==> handle == 8 * slots[found.index].generation + found.index + 1)
        && (found.status == SessionOk <==>
              !poisoned && exists i :: 0 <= i < 4 && slots[i].state != SessionVacant && slots[i].generation > 0
                                       && handle == 8 * slots[i].generation + i + 1)
    {
      forall i | 0 <= i < 4 && slots[i].state != SessionVacant && slots[i].generation > 0
                 && handle == 8 * slots[i].generation + i + 1
        ensures poisoned || FindSlot(handle).status == SessionOk
      {
        SessionHandleRoundTrip(i, slots[i].generation);
      }
    }

    /** A session only answers to the backend it was prepared with. */
    function FindBound(handle: nat, binding: Binding): (found: SessionFound)
      requires Valid()
      reads this
      ensures found.status == SessionOk || FindSlot(handle).status != SessionOk ==> found == FindSlot(handle)
      ensures FindSlot(handle).status == SessionOk ==>
        var slot := slots[FindSlot(handle).index];
        var same := slot.binding.adapter == binding.adapter && slot.binding.capabilities == binding.capabilities;
        && (found.status == SessionOk <==> same && slot.binding.context == binding.context && slot.state != SessionPoisoned)
        && (found.status == SessionIsPoisoned ==> slot.state == SessionPoisoned)
        && (found.status == IdentityMismatch ==> !same)
        && (found.status == ContextMismatch <==>
              slot.binding.adapter == binding.adapter && slot.binding.context != binding.context)
        && found.status in {SessionOk, SessionIsPoisoned, IdentityMismatch, ContextMismatch}
    {
      var found := FindSlot(handle);
      if found.status != SessionOk then found
      else
        var slot := slots[found.index];
        if slot.binding.adapter != binding.adapter then SessionFound(IdentityMismatch, 0)
        else if slot.binding.context != binding.context then SessionFound(ContextMismatch, 0)
        else if slot.binding.capabilities != binding.capabilities then SessionFound(IdentityMismatch, 0)
        else if slot.state == SessionPoisoned then SessionFound(SessionIsPoisoned, 0)
        else found
    }

    /** It also only answers on the machine it was prepared on; `a20Moves` lets
        the A20 gate differ. */
    static predicate SameMachine(slot: SessionSlot, binding: Binding, a20Moves: bool) {
      && slot.binding.machine == binding.machine && slot.binding.machineContext == binding.machineContext
      && slot.binding.limit == binding.limit && (a20Moves || slot.binding.a20 == binding.a20)
    }

    /** A session can still be prepared. */
    predicate HasRoom() reads this {
      exists i :: 0 <= i < |slots| && slots[i].state == SessionVacant && slots[i].generation < 0x1fff_ffff_ffff_ffff
    }

    /** Have the backend build a session that does not run yet. */
    method Prepare(handoff: Handoff, binding: Binding, answer: PrepareAnswer) returns (status: SessionStatus, handle: nat)
      requires Valid()
      modifies this`slots, this`poisoned
      ensures Valid()
      ensures status == SessionOk ==>
        var found := FindSlot(handle);
        && found.status == SessionOk && old(slots)[found.index].state == SessionVacant
        && slots == old(slots)[found.index := SessionSlot(old(slots)[found.index].generation + 1, Dormant, handoff, binding,
                                                          handoff.entry)]
      ensures status != SessionOk && status != SessionIsPoisoned ==>
        && !poisoned && forall i :: 0 <= i < SESSION_SLOTS ==> slots[i].state == old(slots)[i].state
      ensures poisoned <==> status == SessionIsPoisoned
      ensures old(poisoned) ==> status == SessionIsPoisoned && slots == old(slots)
      ensures !old(poisoned) ==>
        && (status == SessionOk <==> old(HasRoom()) && answer == Built)
        && (status == PrepareRejected <==> old(HasRoom()) && answer == Declined)
        && (status == SessionIsPoisoned <==> old(HasRoom()) && answer == BadPrepare)
        && (status == SessionGenerationExhausted <==>
              forall i :: 0 <= i < |old(slots)| ==> old(slots)[i].generation == 0x1fff_ffff_ffff_ffff)
        && (status == SessionNoSlot ==> !old(HasRoom()))
      ensures status in {SessionOk, PrepareRejected, SessionIsPoisoned, SessionGenerationExhausted, SessionNoSlot}
    {
      hide Disciplined, SessionHandleSlot, SessionHandleGeneration, MakeSessionHandle;
      handle := 0;
      if poisoned { return SessionIsPoisoned, 0; }
      var index, exhausted := 0, true;
      while index < SESSION_SLOTS && !(slots[index].state == SessionVacant && slots[index].generation < SESSION_GENERATION_MAX)
        invariant index <= SESSION_SLOTS
        invariant forall i :: 0 <= i < index ==>
          !(slots[i].state == SessionVacant && slots[i].generation < SESSION_GENERATION_MAX)
        invariant exhausted <==> forall i :: 0 <= i < index ==> slots[i].generation == SESSION_GENERATION_MAX
      {
        if slots[index].generation < SESSION_GENERATION_MAX { exhausted := false; }
        index := index + 1;
      }
      if index == SESSION_SLOTS { return if exhausted then SessionGenerationExhausted else SessionNoSlot, 0; }
      var generation := slots[index].generation + 1;
      ghost var slots0 := slots;
      slots := slots[index := SessionSlot(generation, SessionPreparing, handoff, binding, handoff.entry)];
      var now := match answer
        case Built => SessionSlot(generation, Dormant, handoff, binding, handoff.entry)
        case Declined => VacantSlot(generation)
        case BadPrepare => SessionSlot(generation, SessionPoisoned, handoff, binding, handoff.entry);
      DisciplineReserve(slots0, published, ran, index, now);
      slots := slots[index := now];
      assert slots == slots0[index := now];
      if answer == Declined { return PrepareRejected, 0; }
      if answer == BadPrepare {
        poisoned := true;
        return SessionIsPoisoned, 0;
      }
      SessionHandleRoundTrip(index, generation);
      return SessionOk, MakeSessionHandle(index, generation);
    }

    function PreflightPublish(handle: nat, handoff: Handoff, binding: Binding): (status: SessionStatus)
      requires Valid()
      reads this
      ensures var found := FindSlot(handle);
        && (found.status != SessionOk ==> status == found.status)
        && (status == SessionOk <==>
              && found.status == SessionOk && slots[found.index].state == Dormant && slots[found.index].handoff == handoff
              && slots[found.index].binding == binding)
    {
      var found := FindBound(handle, binding);
      if found.status != SessionOk then found.status
      else if !SameMachine(slots[found.index], binding, false) then MachineMismatch
      else if slots[found.index].state != Dormant then SessionInvalidState
      else if slots[found.index].handoff != handoff then IdentityMismatch
      else SessionOk
    }

    /** Make a dormant session runnable. */
    method Publish(handle: nat, handoff: Handoff, binding: Binding) returns (status: SessionStatus)
      requires Valid()
      modifies this`slots, this`published
      ensures Valid() && status == old(PreflightPublish(handle, handoff, binding))
      ensures status == SessionOk ==>
        var index := old(FindSlot(handle)).index;
        && slots == old(slots)[index := old(slots)[index].(state := Runnable)]
        && published == old(published)[SessionKey(index, old(slots)[index].generation) := handoff]
      ensures status != SessionOk ==> unchanged(this)
    {
      hide Disciplined, SessionHandleSlot, SessionHandleGeneration;
      status := PreflightPublish(handle, handoff, binding);
      if status != SessionOk { return; }
      var index := FindSlot(handle).index;
      DisciplinePublish(slots, published, ran, index, slots[index].(state := Runnable));
      published := published[SessionKey(index, slots[index].generation) := handoff];
      slots := slots[index := slots[index].(state := Runnable)];
    }

    /** Let the backend run the guest until the next event: exactly a runnable
        session of this backend and machine runs. */
    method RunUntilEvent(handle: nat, binding: Binding, answer: RunAnswer) returns (status: SessionStatus, exited: bool)
      requires Valid()
      modifies this`slots, this`poisoned, this`ran
      ensures Valid()
      ensures status != SessionOk && status != SessionIsPoisoned ==> unchanged(this)
      ensures var found := old(FindBound(handle, binding));
        ran != old(ran) <==>
          found.status == SessionOk && old(slots)[found.index].state == Runnable && old(slots)[found.index].binding == binding
      ensures ran != old(ran) ==>
        var index := old(FindSlot(handle)).index;
        var key := SessionKey(index, old(slots)[index].generation);
        && index < SESSION_SLOTS && ran == old(ran) + [key] && old(slots)[index].state == Runnable
        && key in published && published[key] == old(slots)[index].handoff
        && slots == old(slots)[index := slots[index]] && slots[index].handoff == old(slots)[index].handoff
        && (answer.Event? ==> status == SessionOk && exited == answer.ended && !poisoned && slots[index].cpu == answer.cpu
                              && slots[index].state == if exited then Exited else Runnable)
        && (answer.BadRun? ==> status == SessionIsPoisoned && poisoned)
      ensures ran == old(ran) ==> status != SessionOk && slots == old(slots) && poisoned == old(poisoned)
    {
      hide Disciplined, SessionHandleSlot, SessionHandleGeneration;
      exited := false;
      var found := FindBound(handle, binding);
      if found.status != SessionOk { return found.status, false; }
      var slot := slots[found.index];
      if !SameMachine(slot, binding, false) { return MachineMismatch, false; }
      if slot.state != Runnable { return SessionInvalidState, false; }
      RunnableIsPublished(slots, published, ran, found.index);
      DisciplineRun(slots, published, ran, found.index);
      ghost var slots0 := slots;
      slots, ran := slots[found.index := slot.(state := Running)], ran + [SessionKey(found.index, slot.generation)];
      ghost var s1 := slots;
      var now := match answer
        case Event(cpu, ended) => slot.(state := if ended then Exited else Runnable, cpu := cpu)
        case BadRun => slot.(state := SessionPoisoned);
      DisciplineMove(s1, published, ran, found.index, now);
      slots := slots[found.index := now];
      assert slots == slots0[found.index := now];
      if answer.BadRun? {
        poisoned := true;
        return SessionIsPoisoned, false;
      }
      return SessionOk, answer.ended;
    }

    /** Replace the stopped CPU's registers, provided they are what was seen. */
    method ReplaceState(handle: nat, binding: Binding, expected: nat, replacement: nat, answer: CommitAnswer)
      returns (status: SessionStatus)
      requires Valid()
      modifies this`slots, this`poisoned
      ensures Valid()
      ensures var found := old(FindBound(handle, binding));
        status == SessionOk <==>
          && found.status == SessionOk
            && old(slots)[found.index].binding == binding.(a20 := old(slots)[found.index].binding.a20)
          && old(slots)[found.index].state == Runnable && old(slots)[found.index].cpu == expected && answer == StateTaken
      ensures status == SessionOk ==>
        var index := old(FindSlot(handle)).index;
        var slot := old(slots)[index];
        slots == old(slots)[index := slot.(cpu := replacement, binding := slot.binding.(a20 := binding.a20))]
      ensures status != SessionOk && status != SessionIsPoisoned ==> unchanged(this)
      ensures var found := old(FindBound(handle, binding));
        && (found.status != SessionOk ==> status == found.status && unchanged(this))
        && (found.status == SessionOk && status == SessionIsPoisoned ==>
              && answer == BadCommit && poisoned
              && slots == old(slots)[found.index := old(slots)[found.index].(state := SessionPoisoned)])
    {
      hide Disciplined, SessionHandleSlot, SessionHandleGeneration;
      var found := FindBound(handle, binding);
      if found.status != SessionOk { return found.status; }
      var slot := slots[found.index];
      if !SameMachine(slot, binding, true) { return MachineMismatch; }
      if slot.state != Runnable { return SessionInvalidState; }
      if slot.cpu != expected { return SessionMismatch; }
      if answer == StateRefused { return SessionInvalidState; }
      if answer == BadCommit {
        DisciplineMove(slots, published, ran, found.index, slot.(state := SessionPoisoned));
        slots, poisoned := slots[found.index := slot.(state := SessionPoisoned)], true;
        return SessionIsPoisoned;
      }
      var now := slot.(cpu := replacement, binding := slot.binding.(a20 := binding.a20));
      DisciplineMove(slots, published, ran, found.index, now);
      slots := slots[found.index := now];
      return SessionOk;
    }

    /** Have the backend let the session go; it may keep it. */
    method Stop(handle: nat, binding: Binding, answer: ReleaseAnswer) returns (status: SessionStatus)
      requires Valid()
      modifies this`slots, this`poisoned
      ensures Valid()
      ensures var found := old(FindBound(handle, binding));
        && (found.status != SessionOk ==> status == found.status)
        && (found.status == SessionOk && old(slots)[found.index].state !in {Dormant, Runnable, Exited} ==>
              status == SessionInvalidState)
        && (found.status == SessionOk && old(slots)[found.index].state in {Dormant, Runnable, Exited} ==>
              status == match answer
                case LetGo => SessionOk
                case HeldOn => ReleaseRetained
                case BadRelease => SessionIsPoisoned)
      ensures status == SessionOk ==>
        var index := old(FindSlot(handle)).index;
        && index < SESSION_SLOTS && !poisoned
        && slots == old(slots)[index := old(slots)[index].(state := SessionStopped)]
      ensures status != SessionOk && status != SessionIsPoisoned ==> unchanged(this)
      ensures var found := old(FindBound(handle, binding));
        found.status == SessionOk && status == SessionIsPoisoned ==>
          poisoned && slots == old(slots)[found.index := old(slots)[found.index].(state := SessionPoisoned)]
    {
      hide Disciplined, SessionHandleSlot, SessionHandleGeneration;
      var found := FindBound(handle, binding);
      if found.status != SessionOk { return found.status; }
      var slot := slots[found.index];
      if slot.state !in {Dormant, Runnable, Exited} { return SessionInvalidState; }
      ghost var slots0 := slots;
      slots := slots[found.index := slot.(state := Stopping)];
      if answer == HeldOn {
        slots := slots[found.index := slot];
        assert slots == slots0;
        return ReleaseRetained;
      }
      var now := slot.(state := if answer == LetGo then SessionStopped else SessionPoisoned);
      DisciplineMove(slots0, published, ran, found.index, now);
      slots := slots[found.index := now];
      assert slots == slots0[found.index := now];
      if answer == BadRelease {
        poisoned := true;
        return SessionIsPoisoned;
      }
      return SessionOk;
    }

    method Retire(handle: nat) returns (status: SessionStatus)
      requires Valid()
      modifies this`slots
      ensures Valid()
      ensures var found := old(FindSlot(handle));
        status == SessionOk <==> found.status == SessionOk && old(slots)[found.index].state == SessionStopped
      ensures var index := old(FindSlot(handle)).index;
        slots == if status != SessionOk then old(slots)
                 else old(slots)[index := SessionSlot(old(slots)[index].generation, SessionVacant, Handoff(0, 0),
                                                      Binding(0, 0, 0, 0, 0, 0, false), 0)]
    {
      hide Disciplined, SessionHandleSlot, SessionHandleGeneration;
      var found := FindSlot(handle);
      if found.status != SessionOk { return found.status; }
      var slot := slots[found.index];
      if slot.state != SessionStopped { return SessionInvalidState; }
      var now := VacantSlot(slot.generation);
      DisciplineMove(slots, published, ran, found.index, now);
      slots := slots[found.index := now];
      return SessionOk;
    }
  }

  lemma {:induction false} RunnableIsPublished(slots: seq<SessionSlot>, published: map<SessionKey, Handoff>,
                                               ran: seq<SessionKey>, i: nat)
    requires Disciplined(slots, published, ran) && i < |slots| && slots[i].state == Runnable
    ensures SessionKey(i, slots[i].generation) in published && published[SessionKey(i, slots[i].generation)] == slots[i].handoff
  {
  }
}

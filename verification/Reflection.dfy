/** Interrupt reflection and IRET on the guest's real-mode stack. */
module InterruptReflection {
  import opened GuestMemory
  import opened GuestMachine
  import opened McbChain

  const FRAME_BYTES := 6
  const FLAG_BITS := 32
  const RESERVED_ONE := 1
  const TRAP := 8
  const INTERRUPT := 9

  /** EFLAGS, bit by bit. */
  type Flags = bits: seq<bool> | |bits| == FLAG_BITS witness seq(FLAG_BITS, i => false)

  type u32 = x: int | 0 <= x < 0x1_0000_0000

  datatype Mode = Real16 | Vm86 | Protected

  /** A CPU; `others` stands for the registers no interrupt touches. */
  datatype Cpu = Cpu(mode: Mode, eip: u32, cs: u16, esp: u32, ss: u16, eflags: Flags, others: nat)

  predicate CanReceive(cpu: Cpu) {
    !cpu.mode.Protected? && cpu.eip < OFFSET_WRAP && cpu.esp < OFFSET_WRAP
  }

  // ---------- flags ----------

  /** The number whose binary digits these are, the lowest first. */
  function Value(bits: seq<bool>): (value: nat)
    ensures value < Power(|bits|)
  {
    if bits == [] then 0 else (if bits[0] then 1 else 0) + 2 * Value(bits[1..])
  }

  function Power(n: nat): (power: nat) { if n == 0 then 1 else 2 * Power(n - 1) }

  function Digits(value: nat, n: nat): (bits: seq<bool>)
    ensures |bits| == n
  {
    if n == 0 then [] else [value % 2 == 1] + Digits(value / 2, n - 1)
  }

  lemma {:induction false} DigitsOfValue(bits: seq<bool>)
    ensures Digits(Value(bits), |bits|) == bits
  {
    if bits != [] {
      DigitsOfValue(bits[1..]);
      assert Value(bits) / 2 == Value(bits[1..]);
      assert bits == [bits[0]] + bits[1..];
    }
  }

  lemma {:induction false} WordPower()
    ensures Power(16) == 0x1_0000
  {
    assert Power(4) == 16;
    assert Power(8) == 256;
    assert Power(12) == 4096;
  }

  /** The low half of EFLAGS as it is pushed. */
  function FlagsWord(eflags: Flags): (word: u16) {
    WordPower();
    Value(eflags[..16])
  }

  /** The bits a 16-bit pop replaces: all status and control flags, IOPL and NT. */
  predicate Writable(i: nat) { i in {0, 2, 4, 6, 7, 8, 9, 10, 11, 12, 13, 14} }

  /** What a 16-bit pop leaves in the flags. */
  function FlagsAfterPop(previous: Flags, popped: u16): (eflags: Flags) {
    var bits := Digits(popped, 16);
    seq(FLAG_BITS, i requires 0 <= i < FLAG_BITS =>
      if i == RESERVED_ONE then true else if Writable(i) then bits[i] else previous[i])
  }

  /** The two agree on the bits that no 16-bit pop changes. */
  predicate SameFixed(left: Flags, right: Flags) {
    forall i :: 0 <= i < FLAG_BITS && i != RESERVED_ONE && !Writable(i) ==> left[i] == right[i]
  }

  /** The flags a handler starts with. */
  function Masked(eflags: Flags): (masked: Flags) { eflags[TRAP := false][INTERRUPT := false] }

  /** The flags a handler's return leaves. */
  function Resumed(eflags: Flags): (resumed: Flags) { eflags[RESERVED_ONE := true] }

  lemma {:induction false} FixedKept(eflags: Flags, fixed: Flags)
    requires SameFixed(eflags, fixed)
    ensures SameFixed(Masked(eflags), fixed) && SameFixed(Resumed(eflags), fixed)
  {
  }

  lemma {:induction false} FixedAgree(left: Flags, right: Flags, fixed: Flags)
    requires SameFixed(left, fixed) && SameFixed(right, fixed)
    ensures SameFixed(left, right)
  {
  }

  /** Popping the saved flags over flags that kept the fixed bits gives the saved
      flags with bit one set. */
  lemma {:induction false} FlagsReturn(eflags: Flags, previous: Flags)
    requires SameFixed(previous, eflags)
    ensures FlagsAfterPop(previous, FlagsWord(eflags)) == Resumed(eflags)
  {
    hide Value, Digits;
    DigitsOfValue(eflags[..16]);
  }

  // ---------- one interrupt and one return ----------

  function FrameBelow(sp: u16): (below: u16) {
    if sp >= FRAME_BYTES then sp - FRAME_BYTES else sp + OFFSET_WRAP - FRAME_BYTES
  }

  lemma {:induction false} FrameAbove(sp: u16)
    ensures Advance(FrameBelow(sp), FRAME_BYTES) == sp
  {
  }

  /** IP, CS and FLAGS in the order IRET pops them. */
  function Frame(cpu: Cpu): (bytes: seq<byte>)
    requires CanReceive(cpu)
    ensures |bytes| == FRAME_BYTES
  {
    var flags := FlagsWord(cpu.eflags);
    [Lo(cpu.eip), Hi(cpu.eip), Lo(cpu.cs), Hi(cpu.cs), Lo(flags), Hi(flags)]
  }

  /** The CPU at the entry of a handler. */
  function Vectored(cpu: Cpu, vector: seq<byte>): (after: Cpu)
    requires CanReceive(cpu) && |vector| == 4
    ensures CanReceive(after)
  {
    cpu.(esp := FrameBelow(cpu.esp), eip := Word(vector[0], vector[1]), cs := Word(vector[2], vector[3]),
         eflags := Masked(cpu.eflags))
  }

  /** The CPU after IRET has popped a frame. */
  function Returned(cpu: Cpu, frame: seq<byte>): (after: Cpu)
    requires CanReceive(cpu) && |frame| == FRAME_BYTES
    ensures CanReceive(after)
  {
    cpu.(eip := Word(frame[0], frame[1]), cs := Word(frame[2], frame[3]),
         eflags := FlagsAfterPop(cpu.eflags, Word(frame[4], frame[5])),
         esp := Advance(cpu.esp, FRAME_BYTES))
  }

  /** Whatever a handler did to the other registers, to CS:IP and to the flags a
      pop can write, returning through the frame of `cpu` gives back `cpu`'s CS,
      IP, SP and flags, bit one of the flags being set. */
  lemma {:induction false} ReturnUndoes(cpu: Cpu, leaving: Cpu)
    requires CanReceive(cpu) && CanReceive(leaving)
    requires leaving.esp == FrameBelow(cpu.esp) && leaving.ss == cpu.ss && leaving.mode == cpu.mode
    requires SameFixed(leaving.eflags, cpu.eflags)
    ensures Returned(leaving, Frame(cpu)) == cpu.(eflags := Resumed(cpu.eflags), others := leaving.others)
  {
    hide FlagsWord, FlagsAfterPop, Word, Lo, Hi, Advance, FrameBelow, SameFixed;
    WordRoundTrip(cpu.eip);
    WordRoundTrip(cpu.cs);
    WordRoundTrip(FlagsWord(cpu.eflags));
    FlagsReturn(cpu.eflags, leaving.eflags);
    FrameAbove(cpu.esp);
  }

  // ---------- the same, byte by byte and bit by bit ----------

  function Bit(on: bool): (n: nat) { if on then 1 else 0 }

  function Nibble(e: Flags, k: nat): (n: nat)
    requires k < 13
  {
    Bit(e[k]) + 2 * Bit(e[k + 1]) + 4 * Bit(e[k + 2]) + 8 * Bit(e[k + 3])
  }

  /** The pushed flags as a number, the low bits first. */
  function FlagsNumber(e: Flags): (n: nat) {
    Nibble(e, 0) + 16 * Nibble(e, 4) + 256 * Nibble(e, 8) + 4096 * Nibble(e, 12)
  }

  lemma {:induction false} ValueStep(e: Flags, k: nat)
    requires k < 16
    ensures Value(e[k..16]) == Bit(e[k]) + 2 * Value(e[k + 1..16])
  {
    assert e[k..16][1..] == e[k + 1..16];
  }

  lemma {:induction false} ValueOfNibble(e: Flags, k: nat)
    requires k < 13
    ensures Value(e[k..16]) == Nibble(e, k) + 16 * Value(e[k + 4..16])
  {
    hide Value, Bit;
    ValueStep(e, k);
    ValueStep(e, k + 1);
    ValueStep(e, k + 2);
    ValueStep(e, k + 3);
  }

  lemma {:induction false} FlagsWordIs(e: Flags)
    ensures FlagsWord(e) == FlagsNumber(e)
  {
    hide Value, Nibble, FlagsWord;
    FlagsWordIsValue(e);
    ValueOfNibble(e, 0);
    ValueOfNibble(e, 4);
    ValueOfNibble(e, 8);
    ValueOfNibble(e, 12);
    NoValue(e);
  }

  lemma {:induction false} FlagsWordIsValue(e: Flags)
    ensures FlagsWord(e) == Value(e[0..16])
  {
    assert e[..16] == e[0..16];
  }

  lemma {:induction false} NoValue(e: Flags)
    ensures Value(e[16..16]) == 0
  {
  }

  /** The pushed frame: IP, CS and FLAGS, low bytes first. */
  lemma {:induction false} FrameMeaning(cpu: Cpu)
    requires CanReceive(cpu)
    ensures var f := Frame(cpu);
      && f[0] as int + 256 * (f[1] as int) == cpu.eip && f[2] as int + 256 * (f[3] as int) == cpu.cs
      && f[4] as int + 256 * (f[5] as int) == FlagsNumber(cpu.eflags)
  {
    hide FlagsWord, FlagsNumber;
    FlagsWordIs(cpu.eflags);
  }

  /** Entering a handler: IP and CS from the vector, SP six lower, trap and
      interrupt flag clear, everything else as before. */
  lemma {:induction false} VectoredMeaning(cpu: Cpu, vector: seq<byte>)
    requires CanReceive(cpu) && |vector| == 4
    ensures var after := Vectored(cpu, vector);
      && after.eip == vector[0] as int + 256 * (vector[1] as int) && after.cs == vector[2] as int + 256 * (vector[3] as int)
      && after.esp == (if cpu.esp >= 6 then cpu.esp - 6 else cpu.esp + 0xfffa)
      && after.ss == cpu.ss && after.mode == cpu.mode && after.others == cpu.others
      && forall i :: 0 <= i < 32 ==> after.eflags[i] == (i != 8 && i != 9 && cpu.eflags[i])
  {
    hide Word;
    WordValue(vector[0], vector[1]);
    WordValue(vector[2], vector[3]);
  }

  /** Popping flags: bit one is set, bits 0, 2, 4 and 6 to 14 are popped, and the
      rest stays. */
  lemma {:induction false} PopMeaning(previous: Flags, e: Flags)
    ensures |e| == 32
    ensures forall i :: 0 <= i < 32 ==>
      FlagsAfterPop(previous, FlagsWord(e))[i] ==
        if i == 1 then true else if i == 0 || i == 2 || i == 4 || 6 <= i <= 14 then e[i] else previous[i]
  {
    hide Value, Digits;
    DigitsOfValue(e[..16]);
  }

  /** Returning: IP, CS and FLAGS from the frame, SP six higher, the rest stays. */
  lemma {:induction false} ReturnedMeaning(cpu: Cpu, frame: seq<byte>)
    requires CanReceive(cpu) && |frame| == FRAME_BYTES
    ensures var after := Returned(cpu, frame);
      && after.eip == frame[0] as int + 256 * (frame[1] as int) && after.cs == frame[2] as int + 256 * (frame[3] as int)
      && after.esp == (if cpu.esp + 6 < 0x1_0000 then cpu.esp + 6 else cpu.esp + 6 - 0x1_0000)
      && after.ss == cpu.ss && after.mode == cpu.mode && after.others == cpu.others
      && after.eflags == FlagsAfterPop(cpu.eflags, Word(frame[4], frame[5]))
      && Word(frame[4], frame[5]) == frame[4] as int + 256 * (frame[5] as int)
  {
    hide Word, FlagsAfterPop;
    WordValue(frame[0], frame[1]);
    WordValue(frame[2], frame[3]);
    WordValue(frame[4], frame[5]);
  }

  // ---------- the machine operations ----------

  datatype ReflectionStatus = Reflected | NotRealMode | VectorFault | StackFault | ReflectionTorn

  datatype Receipt = Receipt(segment: u16, offset: u16, original: seq<byte>)

  function StackFrame(cpu: Cpu, a20: bool): (range: Addresses)
    requires CanReceive(cpu)
    ensures |range| == FRAME_BYTES
  {
    FarRange(cpu.ss, FrameBelow(cpu.esp), FRAME_BYTES, a20)
  }

  /** Push the interrupt frame and enter the vector's handler.  A failure leaves
      memory alone unless the machine could not undo its own write. */
  method Reflect(machine: Machine, vector: byte, cpu: Cpu)
    returns (status: ReflectionStatus, after: Cpu, receipt: Receipt)
    requires machine.Valid()
    modifies machine`mem, machine`faults
    ensures machine.Valid() && |machine.mem| == |old(machine.mem)|
    ensures status == NotRealMode <==> !CanReceive(cpu)
    ensures status != Reflected && status != ReflectionTorn ==> machine.mem == old(machine.mem)
    ensures status == Reflected ==> Within(StackFrame(cpu, machine.a20), |machine.mem|) && vector * 4 + 4 <= |machine.mem|
    ensures status == Reflected ==> machine.mem == Store(old(machine.mem), StackFrame(cpu, machine.a20), Frame(cpu))
    ensures status == Reflected ==> after == Vectored(cpu, old(machine.mem)[vector * 4..vector * 4 + 4])
    ensures status == Reflected ==>
      receipt == Receipt(cpu.ss, FrameBelow(cpu.esp), Load(old(machine.mem), StackFrame(cpu, machine.a20)))
    ensures machine.faults == old(machine.faults) && CanReceive(cpu) && status != Reflected ==>
      !Within(StackFrame(cpu, machine.a20), |machine.mem|) || |machine.mem| < vector * 4 + 4
  {
    after, receipt := cpu, Receipt(0, 0, []);
    if !CanReceive(cpu) { return NotRealMode, after, receipt; }
    var read, target := machine.Read(vector * 4, 4);
    VectorRange(machine.mem, vector * 4);
    if read != Ok { return VectorFault, after, receipt; }
    var written, original := machine.ReplaceFar(cpu.ss, FrameBelow(cpu.esp), Frame(cpu));
    if written == RollbackFailed { return ReflectionTorn, after, receipt; }
    if written != Ok { return StackFault, after, receipt; }
    return Reflected, Vectored(cpu, target), Receipt(cpu.ss, FrameBelow(cpu.esp), original);
  }

  lemma {:induction false} VectorRange(m: Memory, at: nat)
    ensures Within(LinearRange(at, 4), |m|) <==> at + 4 <= |m|
    ensures at + 4 <= |m| ==> Load(m, LinearRange(at, 4)) == m[at..at + 4]
  {
    if at + 4 <= |m| { LinearRangeWithin(at, 4, |m|); } else { assert LinearRange(at, 4)[3] == at + 3; }
  }

  /** Put back the bytes a reflection overwrote. */
  method Rollback(machine: Machine, receipt: Receipt) returns (status: MachineStatus)
    requires machine.Valid() && |receipt.original| == FRAME_BYTES
    modifies machine`mem, machine`faults
    ensures machine.Valid() && |machine.mem| == |old(machine.mem)|
    ensures var frame := FarRange(receipt.segment, receipt.offset, FRAME_BYTES, machine.a20);
      && Reported(status, machine.faults == old(machine.faults), Within(frame, |machine.mem|))
      && (status == Ok ==> machine.mem == Store(old(machine.mem), frame, receipt.original))
    ensures status != Ok && status != RollbackFailed ==> machine.mem == old(machine.mem)
  {
    var scratch;
    status, scratch := machine.ReplaceFar(receipt.segment, receipt.offset, receipt.original);
  }

  /** A rolled-back reflection leaves no trace in memory. */
  lemma {:induction false} RollbackUndoes(m: Memory, a20: bool, cpu: Cpu)
    requires CanReceive(cpu) && Within(StackFrame(cpu, a20), |m|)
    ensures var range := StackFrame(cpu, a20);
      Store(Store(m, range, Frame(cpu)), range, Load(m, range)) == m
  {
    hide Store, Load, FarRange, Frame;
    var range := StackFrame(cpu, a20);
    StoreFrame(m, range, Frame(cpu));
    StoreRestores(m, Store(m, range, Frame(cpu)), range);
  }

  /** Pop the frame at SS:SP. */
  method Iret(machine: Machine, cpu: Cpu) returns (status: MachineStatus, after: Cpu)
    requires machine.Valid() && CanReceive(cpu)
    modifies machine`faults
    ensures Reported(status, machine.faults == old(machine.faults),
      Within(FarRange(cpu.ss, cpu.esp, FRAME_BYTES, machine.a20), |machine.mem|))
    ensures status == Ok ==>
      after == Returned(cpu, Load(machine.mem, FarRange(cpu.ss, cpu.esp, FRAME_BYTES, machine.a20)))
    ensures status != Ok ==> after == cpu
  {
    var frame;
    status, frame := machine.ReadFar(cpu.ss, cpu.esp, FRAME_BYTES);
    after := if status == Ok then Returned(cpu, frame) else cpu;
  }

  // ---------- whole runs ----------

  /** What a guest program does between an interrupt and its return: compute,
      or be interrupted, to any depth. */
  datatype Run =
    | Done
    | Compute(eip: u16, cs: u16, eflags: Flags, others: nat, range: Addresses, bytes: seq<byte>, rest: Run)
    | Interrupt(vector: byte, handler: Run, rest: Run)

  /** Bytes of stack the nested frames of a run take at most. */
  function Depth(run: Run): (bytes: nat) {
    match run
    case Done => 0
    case Compute(_, _, _, _, _, _, rest) => Depth(rest)
    case Interrupt(_, handler, rest) =>
      if FRAME_BYTES + Depth(handler) < Depth(rest) then Depth(rest) else FRAME_BYTES + Depth(handler)
  }

  /** `run` fits the machine, leaves the `live` bytes of frames at SS:SP alone
      and keeps the flag bits a pop cannot write. */
  ghost predicate Tame(limit: nat, a20: bool, ss: u16, sp: u16, live: nat, fixed: Flags, run: Run)
    decreases run
  {
    match run
    case Done => true
    case Compute(_, _, eflags, _, range, bytes, rest) =>
      && |range| == |bytes| && Within(range, limit) && Apart(range, FarRange(ss, sp, live, a20))
      && SameFixed(eflags, fixed) && Tame(limit, a20, ss, sp, live, fixed, rest)
    case Interrupt(vector, handler, rest) =>
      && vector * 4 + 4 <= limit && Within(FarRange(ss, FrameBelow(sp), FRAME_BYTES, a20), limit)
      && Tame(limit, a20, ss, FrameBelow(sp), FRAME_BYTES + live, fixed, handler)
      && Tame(limit, a20, ss, sp, live, fixed, rest)
  }

  ghost predicate Apart(left: Addresses, right: Addresses) {
    forall a :: a in left ==> a !in right
  }

  /** Memory and CPU at the entry of a handler. */
  ghost function Entered(m: Memory, a20: bool, vector: byte, cpu: Cpu): (entry: (Memory, Cpu))
    requires CanReceive(cpu) && vector * 4 + 4 <= |m| && Within(StackFrame(cpu, a20), |m|)
    ensures |entry.0| == |m| && CanReceive(entry.1)
    ensures entry.1.ss == cpu.ss && entry.1.esp == FrameBelow(cpu.esp) && entry.1.mode == cpu.mode
    ensures entry.1.eflags == Masked(cpu.eflags) && entry.1.others == cpu.others
  {
    (Store(m, StackFrame(cpu, a20), Frame(cpu)), Vectored(cpu, m[vector * 4..vector * 4 + 4]))
  }

  ghost function Execute(m: Memory, a20: bool, cpu: Cpu, live: nat, fixed: Flags, run: Run): (end: (Memory, Cpu))
    requires CanReceive(cpu) && Tame(|m|, a20, cpu.ss, cpu.esp, live, fixed, run)
    ensures |end.0| == |m| && CanReceive(end.1)
    ensures end.1.ss == cpu.ss && end.1.esp == cpu.esp && end.1.mode == cpu.mode
    decreases run, 0
  {
    match run
    case Done => (m, cpu)
    case Compute(eip, cs, eflags, others, range, bytes, rest) =>
      Execute(Store(m, range, bytes), a20, cpu.(eip := eip, cs := cs, eflags := eflags, others := others),
              live, fixed, rest)
    case Interrupt(vector, handler, rest) =>
      var left := Serviced(m, a20, cpu, live, fixed, vector, handler);
      FrameAbove(cpu.esp);
      Execute(left.0, a20, Returned(left.1, Load(left.0, StackFrame(cpu, a20))), live, fixed, rest)
  }

  /** Memory and CPU when a handler is about to return. */
  ghost function Serviced(m: Memory, a20: bool, cpu: Cpu, live: nat, fixed: Flags, vector: byte, handler: Run)
    : (end: (Memory, Cpu))
    requires CanReceive(cpu) && vector * 4 + 4 <= |m| && Within(StackFrame(cpu, a20), |m|)
    requires Tame(|m|, a20, cpu.ss, FrameBelow(cpu.esp), FRAME_BYTES + live, fixed, handler)
    ensures |end.0| == |m| && CanReceive(end.1)
    ensures end.1.ss == cpu.ss && end.1.esp == FrameBelow(cpu.esp) && end.1.mode == cpu.mode
    decreases handler, 1
  {
    var entry := Entered(m, a20, vector, cpu);
    Execute(entry.0, a20, entry.1, FRAME_BYTES + live, fixed, handler)
  }

  // ---------- what every run keeps ----------

  lemma {:induction false} StackSplit(ss: u16, sp: u16, live: nat, a20: bool)
    requires FRAME_BYTES + live <= OFFSET_WRAP
    ensures var below := FarRange(ss, FrameBelow(sp), FRAME_BYTES, a20);
      var above := FarRange(ss, sp, live, a20);
      FarRange(ss, FrameBelow(sp), FRAME_BYTES + live, a20) == below + above && Apart(below, above)
  {
    hide FarRange, Advance, FrameBelow;
    FrameAbove(sp);
    FarRangeSplit(ss, FrameBelow(sp), FRAME_BYTES, live, a20);
    FarRangeInjective(ss, FrameBelow(sp), FRAME_BYTES + live, a20);
    InjectiveApart(FarRange(ss, FrameBelow(sp), FRAME_BYTES, a20), FarRange(ss, sp, live, a20));
  }

  lemma {:induction false} InjectiveApart(left: Addresses, right: Addresses)
    requires Injective(left + right)
    ensures Apart(left, right)
  {
    forall i, j | 0 <= i < |left| && 0 <= j < |right| ensures left[i] != right[j] {
      assert (left + right)[i] == left[i] && (left + right)[|left| + j] == right[j];
    }
  }

  lemma {:induction false} ApartLoad(m: Memory, range: Addresses, bytes: seq<byte>, other: Addresses)
    requires |range| == |bytes| && Within(range, |m|) && Within(other, |m|) && Apart(range, other)
    ensures Load(Store(m, range, bytes), other) == Load(m, other)
  {
    StoreFrame(m, range, bytes);
  }

  lemma {:induction false} LoadAppend(m: Memory, m': Memory, left: Addresses, right: Addresses)
    requires |m'| == |m| && Within(left, |m|) && Within(right, |m|)
    ensures Within(left + right, |m|)
    ensures Load(m', left + right) == Load(m, left + right)
      ==> Load(m', left) == Load(m, left) && Load(m', right) == Load(m, right)
  {
    assert forall n: Memory {:trigger Load(n, left)} | |n| == |m| :: Load(n, left) == Load(n, left + right)[..|left|];
    assert forall n: Memory {:trigger Load(n, right)} | |n| == |m| :: Load(n, right) == Load(n, left + right)[|left|..];
  }

  /** Entering a handler keeps the live frames and adds the interrupted CPU's. */
  lemma {:induction false} EntryPushes(m: Memory, a20: bool, vector: byte, cpu: Cpu, live: nat)
    requires CanReceive(cpu) && vector * 4 + 4 <= |m| && Within(StackFrame(cpu, a20), |m|)
    requires FRAME_BYTES + live <= OFFSET_WRAP && Within(FarRange(cpu.ss, cpu.esp, live, a20), |m|)
    ensures var m' := Entered(m, a20, vector, cpu).0;
      && Load(m', StackFrame(cpu, a20)) == Frame(cpu)
      && Load(m', FarRange(cpu.ss, cpu.esp, live, a20)) == Load(m, FarRange(cpu.ss, cpu.esp, live, a20))
  {
    hide FarRange, Frame, Store, Load, Within, Vectored, Apart, FrameBelow;
    StackSplit(cpu.ss, cpu.esp, live, a20);
    FarRangeInjective(cpu.ss, FrameBelow(cpu.esp), FRAME_BYTES, a20);
    LoadAfterStore(m, StackFrame(cpu, a20), Frame(cpu));
    ApartLoad(m, StackFrame(cpu, a20), Frame(cpu), FarRange(cpu.ss, cpu.esp, live, a20));
  }

  /** A handler that ends in `left` returns to `cpu`, with the frames above kept. */
  ghost predicate Resumes(m: Memory, a20: bool, cpu: Cpu, live: nat, left: (Memory, Cpu))
    requires CanReceive(cpu) && CanReceive(left.1) && |left.0| == |m|
    requires Within(StackFrame(cpu, a20), |m|) && Within(FarRange(cpu.ss, cpu.esp, live, a20), |m|)
  {
    && Load(left.0, FarRange(cpu.ss, cpu.esp, live, a20)) == Load(m, FarRange(cpu.ss, cpu.esp, live, a20))
    && Returned(left.1, Load(left.0, StackFrame(cpu, a20)))
       == cpu.(eflags := Resumed(cpu.eflags), others := left.1.others)
  }

  /** The invariant of every run: live frames and unpoppable flag bits stay. */
  lemma {:induction false} RunKeepsFrames(m: Memory, a20: bool, cpu: Cpu, live: nat, fixed: Flags, run: Run)
    requires SameFixed(cpu.eflags, fixed)
    requires CanReceive(cpu) && Tame(|m|, a20, cpu.ss, cpu.esp, live, fixed, run)
    requires live + Depth(run) <= OFFSET_WRAP && Within(FarRange(cpu.ss, cpu.esp, live, a20), |m|)
    ensures var end := Execute(m, a20, cpu, live, fixed, run);
      && Load(end.0, FarRange(cpu.ss, cpu.esp, live, a20)) == Load(m, FarRange(cpu.ss, cpu.esp, live, a20))
      && SameFixed(end.1.eflags, fixed)
    decreases run, 0
  {
    hide FarRange, Load, Store, Within, Apart, SameFixed, Frame, FrameBelow, Serviced, Returned, Masked, Resumed;
    match run
    case Done =>
    case Compute(eip, cs, eflags, others, range, bytes, rest) =>
      ApartLoad(m, range, bytes, FarRange(cpu.ss, cpu.esp, live, a20));
      RunKeepsFrames(Store(m, range, bytes), a20,
                     cpu.(eip := eip, cs := cs, eflags := eflags, others := others), live, fixed, rest);
    case Interrupt(vector, handler, rest) =>
      InterruptReturns(m, a20, cpu, live, fixed, vector, handler);
      FixedKept(cpu.eflags, fixed);
      var left := Serviced(m, a20, cpu, live, fixed, vector, handler);
      RunKeepsFrames(left.0, a20, Returned(left.1, Load(left.0, StackFrame(cpu, a20))), live, fixed, rest);
  }

  /** Whatever a handler does, and however deeply it is itself interrupted, its
      IRET resumes the interrupted program: CS, IP, SP, SS and every flag are back,
      except that bit one is set. */
  lemma {:induction false} InterruptReturns(m: Memory, a20: bool, cpu: Cpu, live: nat, fixed: Flags, vector: byte, handler: Run)
    requires SameFixed(cpu.eflags, fixed)
    requires CanReceive(cpu) && vector * 4 + 4 <= |m| && Within(StackFrame(cpu, a20), |m|)
    requires Tame(|m|, a20, cpu.ss, FrameBelow(cpu.esp), FRAME_BYTES + live, fixed, handler)
    requires FRAME_BYTES + live + Depth(handler) <= OFFSET_WRAP
    requires Within(FarRange(cpu.ss, cpu.esp, live, a20), |m|)
    ensures Resumes(m, a20, cpu, live, Serviced(m, a20, cpu, live, fixed, vector, handler))
    decreases handler, 1
  {
    hide FarRange, Load, Store, Within, Apart, SameFixed, Frame, FrameBelow, Returned, Execute, Tame, Masked, Resumed, Entered;
    var entry := Entered(m, a20, vector, cpu);
    EntryPushes(m, a20, vector, cpu, live);
    FixedKept(cpu.eflags, fixed);
    StackSplit(cpu.ss, cpu.esp, live, a20);
    LoadAppend(entry.0, entry.0, StackFrame(cpu, a20), FarRange(cpu.ss, cpu.esp, live, a20));
    RunKeepsFrames(entry.0, a20, entry.1, FRAME_BYTES + live, fixed, handler);
    var left := Serviced(m, a20, cpu, live, fixed, vector, handler);
    LoadAppend(entry.0, left.0, StackFrame(cpu, a20), FarRange(cpu.ss, cpu.esp, live, a20));
    FixedAgree(left.1.eflags, cpu.eflags, fixed);
    ReturnUndoes(cpu, left.1);
  }

  // ---------- plain nesting ----------

  /** Interrupts taken one inside the other, each returning at once. */
  function Nest(vectors: seq<byte>): (run: Run)
    ensures Depth(run) == FRAME_BYTES * |vectors|
  {
    if vectors == [] then Done else Interrupt(vectors[0], Nest(vectors[1..]), Done)
  }

  lemma {:induction false} SegmentHolds(limit: nat, ss: u16, offset: u16, count: nat, a20: bool)
    requires Within(FarRange(ss, 0, OFFSET_WRAP, a20), limit)
    ensures Within(FarRange(ss, offset, count, a20), limit)
  {
    var range := FarRange(ss, offset, count, a20);
    forall i | 0 <= i < |range| ensures range[i] < limit {
      assert range[i] == FarRange(ss, 0, OFFSET_WRAP, a20)[Advance(offset, i)];
    }
  }

  lemma {:induction false} NestTame(limit: nat, a20: bool, ss: u16, sp: u16, live: nat, fixed: Flags, vectors: seq<byte>)
    requires 0x400 <= limit && Within(FarRange(ss, 0, OFFSET_WRAP, a20), limit)
    ensures Tame(limit, a20, ss, sp, live, fixed, Nest(vectors))
    decreases |vectors|
  {
    hide FarRange, Within, FrameBelow, SameFixed;
    if vectors != [] {
      SegmentHolds(limit, ss, FrameBelow(sp), FRAME_BYTES, a20);
      NestTame(limit, a20, ss, FrameBelow(sp), FRAME_BYTES + live, fixed, vectors[1..]);
    }
  }

  /** As many nested interrupts as a 64 KiB stack segment holds frames, wherever
      SP starts and however often it wraps, followed by as many returns. */
  lemma {:induction false} NestReturns(m: Memory, a20: bool, cpu: Cpu, live: nat, fixed: Flags, vectors: seq<byte>)
    requires SameFixed(cpu.eflags, fixed)
    requires CanReceive(cpu) && live + FRAME_BYTES * |vectors| <= OFFSET_WRAP
    requires 0x400 <= |m| && Within(FarRange(cpu.ss, 0, OFFSET_WRAP, a20), |m|)
    ensures Tame(|m|, a20, cpu.ss, cpu.esp, live, fixed, Nest(vectors))
    ensures Execute(m, a20, cpu, live, fixed, Nest(vectors)).1
      == if vectors == [] then cpu else cpu.(eflags := Resumed(cpu.eflags))
    decreases |vectors|
  {
    hide FarRange, Load, Store, Within, SameFixed, Frame, FrameBelow, Returned, Masked, Resumed, Entered;
    NestTame(|m|, a20, cpu.ss, cpu.esp, live, fixed, vectors);
    if vectors != [] {
      SegmentHolds(|m|, cpu.ss, FrameBelow(cpu.esp), FRAME_BYTES, a20);
      SegmentHolds(|m|, cpu.ss, cpu.esp, live, a20);
      var entry := Entered(m, a20, vectors[0], cpu);
      FixedKept(cpu.eflags, fixed);
      NestReturns(entry.0, a20, entry.1, FRAME_BYTES + live, fixed, vectors[1..]);
      NestTame(|m|, a20, cpu.ss, FrameBelow(cpu.esp), FRAME_BYTES + live, fixed, vectors[1..]);
      InterruptReturns(m, a20, cpu, live, fixed, vectors[0], Nest(vectors[1..]));
    }
  }

  /** The 10922 frames a stack segment holds may all be live at once. */
  lemma {:induction false} NestingLimit(m: Memory, a20: bool, cpu: Cpu, vectors: seq<byte>)
    requires CanReceive(cpu) && 0x400 <= |m| && Within(FarRange(cpu.ss, 0, OFFSET_WRAP, a20), |m|)
    requires 0 < |vectors| <= 10922
    ensures Tame(|m|, a20, cpu.ss, cpu.esp, 0, cpu.eflags, Nest(vectors))
    ensures Execute(m, a20, cpu, 0, cpu.eflags, Nest(vectors)).1 == cpu.(eflags := Resumed(cpu.eflags))
  {
    NestReturns(m, a20, cpu, 0, cpu.eflags, vectors);
  }
}

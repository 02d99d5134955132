/** Building the child's program segment prefix in a private buffer. */
module PspBuild {
  import opened GuestMemory
  import opened GuestMachine
  import opened McbChain
  import opened ProcessRuntime
  import opened PspWindow

  const PSP_SIZE := 256
  const PSP_PARAGRAPHS := 0x10
  const CPM_MAX_PARAGRAPHS := 0x0fff
  const CPM_ENTRY_SEGMENT := 0x000c
  const FCB_BYTES := 12
  const FIRST_FCB := 0x5c
  const SECOND_FCB := 0x6c
  const COMMAND_TAIL := 0x80
  const TAIL_BYTES := 128
  const JFT_OFFSET := 0x18
  const HANDLES := 20

  datatype ProcessStatus = ProcessOk | StaleParent | InvalidPsp | ProcessFault

  datatype PspRequest = PspRequest(psp: u16, blockEnd: u16, parent: u16, environment: u16, terminate: FarPointer,
                                   controlC: FarPointer, criticalError: FarPointer, firstFcb: FarPointer,
                                   secondFcb: FarPointer, tail: FarPointer)

  datatype ParentSnapshot = ParentSnapshot(context: nat, limit: nat, a20: bool, segment: u16, bytes: seq<byte>)

  function Window(psp: u16, a20: bool): (window: Addresses)
    ensures |window| == PSP_SIZE
  {
    FarRange(psp, 0, PSP_SIZE, a20)
  }

  function Source(p: FarPointer, count: nat, a20: bool): (range: Addresses)
    ensures |range| == count
  {
    FarRange(p.segment, p.offset, count, a20)
  }

  // ---------- the fields ----------

  datatype Field = Field(at: nat, bytes: seq<byte>)

  function WordBytes(w: u16): (bytes: seq<byte>) ensures |bytes| == 2 { [Lo(w), Hi(w)] }
  function PointerBytes(p: FarPointer): (bytes: seq<byte>) ensures |bytes| == 4 { WordBytes(p.offset) + WordBytes(p.segment) }

  /** Paragraphs a CP/M style program may address behind its PSP. */
  function CpmParagraphs(block: nat): (n: nat)
    requires PSP_PARAGRAPHS <= block
    ensures n <= CPM_MAX_PARAGRAPHS - PSP_PARAGRAPHS
  {
    (if block < CPM_MAX_PARAGRAPHS then block else CPM_MAX_PARAGRAPHS) - PSP_PARAGRAPHS
  }

  function CpmSegment(paragraphs: nat): (segment: u16)
    requires paragraphs <= CPM_MAX_PARAGRAPHS
  {
    if paragraphs <= CPM_ENTRY_SEGMENT then CPM_ENTRY_SEGMENT - paragraphs else CPM_ENTRY_SEGMENT - paragraphs + 0x1_0000
  }

  /** The far call in every PSP is an alias of the entry at linear C0h. */
  lemma {:induction false} CpmCallReachesEntry(block: nat)
    requires PSP_PARAGRAPHS <= block
    ensures var n := CpmParagraphs(block); 16 * n < 0x1_0000 && Linear(CpmSegment(n), 16 * n, false) == 0xc0
  {
  }

  /** The values EXEC puts into the PSP, in order. */
  function Fields(request: PspRequest, jft: seq<byte>): (fields: seq<Field>)
    requires request.psp < request.blockEnd && PSP_PARAGRAPHS <= request.blockEnd - request.psp && |jft| == HANDLES
    ensures forall i :: 0 <= i < |fields| ==> fields[i].at + |fields[i].bytes| <= FIRST_FCB
  {
    var cpm := CpmParagraphs(request.blockEnd - request.psp);
    [ Field(0x00, [0xcd, 0x20]),
      Field(0x02, WordBytes(request.blockEnd)),
      Field(0x05, [0x9a] + WordBytes(16 * cpm) + WordBytes(CpmSegment(cpm))),
      Field(0x0a, PointerBytes(request.terminate)),
      Field(0x0e, PointerBytes(request.controlC)),
      Field(0x12, PointerBytes(request.criticalError)),
      Field(0x16, WordBytes(request.parent)),
      Field(JFT_OFFSET, jft),
      Field(0x2c, WordBytes(request.environment)),
      Field(0x32, WordBytes(HANDLES)),
      Field(0x34, WordBytes(JFT_OFFSET) + WordBytes(request.psp)),
      Field(0x38, [0xff, 0xff, 0xff, 0xff]),
      Field(0x50, [0xcd, 0x21, 0xcb]) ]
  }

  function PutFields(m: Memory, window: Addresses, fields: seq<Field>): (after: Memory)
    requires |window| == PSP_SIZE && Within(window, |m|)
    requires forall i :: 0 <= i < |fields| ==> fields[i].at + |fields[i].bytes| <= PSP_SIZE
    ensures |after| == |m|
    decreases |fields|
  {
    if fields == [] then m
    else var last := fields[|fields| - 1];
         PutBytes(PutFields(m, window, fields[..|fields| - 1]), window, last.at, last.bytes)
  }

  function SetFields(staged: seq<byte>, fields: seq<Field>): (after: seq<byte>)
    requires |staged| == PSP_SIZE
    requires forall i :: 0 <= i < |fields| ==> fields[i].at + |fields[i].bytes| <= PSP_SIZE
    ensures |after| == PSP_SIZE
    decreases |fields|
  {
    if fields == [] then staged
    else var last := fields[|fields| - 1];
         Overwrite(SetFields(staged, fields[..|fields| - 1]), last.at, last.bytes)
  }

  lemma {:induction false} ShowsFields(m0: Memory, m: Memory, window: Addresses, staged: seq<byte>, fields: seq<Field>)
    requires |window| == PSP_SIZE && Shows(m0, m, window, PSP_SIZE, staged) && Injective(window)
    requires forall i :: 0 <= i < |fields| ==> fields[i].at + |fields[i].bytes| <= PSP_SIZE
    ensures Within(window, |m|) && |staged| == PSP_SIZE
    ensures Shows(m0, PutFields(m, window, fields), window, PSP_SIZE, SetFields(staged, fields))
    decreases |fields|
  {
    hide Shows, PutBytes, Overwrite;
    ShowsSizes(m0, m, window, staged);
    if fields != [] {
      var rest, last := fields[..|fields| - 1], fields[|fields| - 1];
      ShowsFields(m0, m, window, staged, rest);
      ShowsPutBytes(m0, PutFields(m, window, rest), window, SetFields(staged, rest), last.at, last.bytes);
    }
  }

  lemma {:induction false} ApartOverwrite(staged: seq<byte>, field: Field, from: nat, to: nat)
    requires from <= to <= |staged| && field.at + |field.bytes| <= |staged|
    requires to <= field.at || field.at + |field.bytes| <= from
    ensures Overwrite(staged, field.at, field.bytes)[from..to] == staged[from..to]
  {
  }

  /** A field no later field touches is there afterwards. */
  lemma {:induction false} FieldStays(staged: seq<byte>, fields: seq<Field>, k: nat)
    requires |staged| == PSP_SIZE && k < |fields|
    requires forall i :: 0 <= i < |fields| ==> fields[i].at + |fields[i].bytes| <= PSP_SIZE
    requires forall j :: k < j < |fields| ==>
      fields[k].at + |fields[k].bytes| <= fields[j].at || fields[j].at + |fields[j].bytes| <= fields[k].at
    ensures SetFields(staged, fields)[fields[k].at..fields[k].at + |fields[k].bytes|] == fields[k].bytes
    decreases |fields|
  {
    hide Overwrite;
    var n := |fields| - 1;
    if k < n {
      FieldStays(staged, fields[..n], k);
      ApartOverwrite(SetFields(staged, fields[..n]), fields[n], fields[k].at, fields[k].at + |fields[k].bytes|);
    }
  }

  /** Where DOS programs look: parent, job file table, environment, table length
      and the pointer to the table inside the PSP itself. */
  ghost predicate Laid(image: seq<byte>, request: PspRequest, jft: seq<byte>) {
    && |image| == PSP_SIZE
    && image[0x16..0x18] == WordBytes(request.parent) && image[JFT_OFFSET..JFT_OFFSET + HANDLES] == jft
    && image[0x2c..0x2e] == WordBytes(request.environment) && image[0x32..0x34] == WordBytes(HANDLES)
    && image[0x34..0x38] == WordBytes(JFT_OFFSET) + WordBytes(request.psp)
  }

  lemma {:induction false} FieldsLaid(staged: seq<byte>, request: PspRequest, jft: seq<byte>)
    requires |staged| == PSP_SIZE && |jft| == HANDLES
    requires request.psp < request.blockEnd && PSP_PARAGRAPHS <= request.blockEnd - request.psp
    ensures Laid(SetFields(staged, Fields(request, jft)), request, jft)
  {
    hide SetFields, WordBytes, PointerBytes;
    var fields := Fields(request, jft);
    FieldStays(staged, fields, 6);
    FieldStays(staged, fields, 7);
    FieldStays(staged, fields, 8);
    FieldStays(staged, fields, 9);
    FieldStays(staged, fields, 10);
  }

  /** A word, low byte first. */
  ghost predicate WordIs(image: seq<byte>, at: nat, value: nat)
    requires at + 1 < |image|
  {
    image[at] as int + 256 * (image[at + 1] as int) == value
  }

  /** Every field EXEC sets, byte for byte: the INT 20h, the end of the block, the
      far call to the system, the three vectors, parent, table, environment,
      table length and pointer, the end of the PSP list, and INT 21h with RETF. */
  ghost predicate PspBytes(image: seq<byte>, request: PspRequest, jft: seq<byte>) {
    && |image| == 256 && image[0x00] == 0xcd && image[0x01] == 0x20 && WordIs(image, 0x02, request.blockEnd)
    && (var block: int := request.blockEnd as int - request.psp as int;
        var behind := (if block < 0x0fff then block else 0x0fff) - 0x10;
        && image[0x05] == 0x9a && behind >= 0 && WordIs(image, 0x06, 16 * behind)
        && WordIs(image, 0x08, if behind <= 0x0c then 0x0c - behind else 0x1_000c - behind))
    && WordIs(image, 0x0a, request.terminate.offset) && WordIs(image, 0x0c, request.terminate.segment)
    && WordIs(image, 0x0e, request.controlC.offset) && WordIs(image, 0x10, request.controlC.segment)
    && WordIs(image, 0x12, request.criticalError.offset) && WordIs(image, 0x14, request.criticalError.segment)
    && WordIs(image, 0x16, request.parent) && image[0x18..0x2c] == jft && WordIs(image, 0x2c, request.environment)
    && WordIs(image, 0x32, 20) && WordIs(image, 0x34, 0x18) && WordIs(image, 0x36, request.psp)
    && image[0x38] == 0xff && image[0x39] == 0xff && image[0x3a] == 0xff && image[0x3b] == 0xff
    && image[0x50] == 0xcd && image[0x51] == 0x21 && image[0x52] == 0xcb
  }

  /** Bytes EXEC copies from the caller, wherever they lie outside the new PSP. */
  ghost predicate CopiedFrom(image: seq<byte>, at: nat, m: Memory, source: FarPointer, count: nat, psp: u16, a20: bool)
    requires at + count <= |image| && Within(Source(source, count, a20), |m|)
  {
    forall i :: 0 <= i < count && Source(source, count, a20)[i] !in Window(psp, a20) ==>
      image[at + i] == m[Source(source, count, a20)[i]]
  }

  /** Bytes of the PSP that are neither a field nor copied from the caller. */
  ghost predicate Unset(j: nat) {
    j == 0x04 || 0x2e <= j < 0x32 || 0x3c <= j < 0x50 || 0x53 <= j < 0x5c || 0x7c <= j < 0x80
  }

  /** They are the captured parent's, wherever its PSP lies outside the new one. */
  ghost predicate UnsetFromParent(image: seq<byte>, snapshot: seq<byte>, parent: u16, psp: u16, a20: bool)
    requires |image| == PSP_SIZE == |snapshot|
  {
    forall j :: 0 <= j < 256 && Unset(j) && Window(parent, a20)[j] !in Window(psp, a20) ==> image[j] == snapshot[j]
  }

  /** The rest of the PSP: both FCBs, each with four zeroes behind, the command
      tail, and what is left of the parent. */
  ghost predicate PspCopies(image: seq<byte>, m: Memory, snapshot: seq<byte>, request: PspRequest, a20: bool)
    requires |image| == PSP_SIZE == |snapshot| && Reachable(m, request, a20)
  {
    && CopiedFrom(image, 0x5c, m, request.firstFcb, 12, request.psp, a20) && image[0x68..0x6c] == [0, 0, 0, 0]
    && CopiedFrom(image, 0x6c, m, request.secondFcb, 12, request.psp, a20) && image[0x78..0x7c] == [0, 0, 0, 0]
    && CopiedFrom(image, 0x80, m, request.tail, 128, request.psp, a20)
    && UnsetFromParent(image, snapshot, request.parent, request.psp, a20)
  }

  lemma {:induction false} FieldsElsewhere(staged: seq<byte>, fields: seq<Field>, j: nat)
    requires |staged| == PSP_SIZE && j < PSP_SIZE
    requires forall i :: 0 <= i < |fields| ==> fields[i].at + |fields[i].bytes| <= PSP_SIZE
    requires forall i :: 0 <= i < |fields| ==> !(fields[i].at <= j < fields[i].at + |fields[i].bytes|)
    ensures SetFields(staged, fields)[j] == staged[j]
    decreases |fields|
  {
    if fields != [] { FieldsElsewhere(staged, fields[..|fields| - 1], j); }
  }

  lemma {:induction false} FieldsLeaveUnset(staged: seq<byte>, request: PspRequest, jft: seq<byte>, j: nat)
    requires |staged| == PSP_SIZE && |jft| == HANDLES && j < PSP_SIZE && Unset(j)
    requires request.psp < request.blockEnd && PSP_PARAGRAPHS <= request.blockEnd - request.psp
    ensures SetFields(staged, Fields(request, jft))[j] == staged[j]
  {
    hide SetFields;
    FieldsElsewhere(staged, Fields(request, jft), j);
  }

  /** Fields leave what was staged of the parent. */
  lemma {:induction false} UnsetStays(staged: seq<byte>, snapshot: seq<byte>, parent: u16, request: PspRequest, jft: seq<byte>,
                                      a20: bool)
    requires |staged| == PSP_SIZE == |snapshot| && |jft| == HANDLES
    requires request.psp < request.blockEnd && PSP_PARAGRAPHS <= request.blockEnd - request.psp
    requires forall j :: 0 <= j < PSP_SIZE && Window(parent, a20)[j] !in Window(request.psp, a20) ==> staged[j] == snapshot[j]
    ensures UnsetFromParent(SetFields(staged, Fields(request, jft)), snapshot, parent, request.psp, a20)
  {
    hide SetFields, Fields, Window, Unset;
    forall j | 0 <= j < 256 && Unset(j) && Window(parent, a20)[j] !in Window(request.psp, a20)
      ensures SetFields(staged, Fields(request, jft))[j] == snapshot[j]
    {
      FieldsLeaveUnset(staged, request, jft, j);
    }
  }

  /** Later copies leave the parts written before. */
  lemma {:induction false} CopiedStays(image: seq<byte>, image': seq<byte>, at: nat, m: Memory, source: FarPointer, count: nat,
                                       psp: u16, a20: bool, from: nat, to: nat)
    requires at + count <= |image| == |image'| && Within(Source(source, count, a20), |m|)
    requires CopiedFrom(image, at, m, source, count, psp, a20) && (at + count <= from || to <= at)
    requires forall j :: 0 <= j < |image| && !(from <= j < to) ==> image'[j] == image[j]
    ensures CopiedFrom(image', at, m, source, count, psp, a20)
  {
    hide Source, Window;
  }

  lemma {:induction false} UnsetKept(image: seq<byte>, image': seq<byte>, snapshot: seq<byte>, parent: u16, psp: u16, a20: bool,
                                     from: nat, to: nat)
    requires |image| == PSP_SIZE == |snapshot| && |image'| == PSP_SIZE && UnsetFromParent(image, snapshot, parent, psp, a20)
    requires forall j :: 0 <= j < PSP_SIZE && !(from <= j < to) ==> image'[j] == image[j]
    requires forall j :: from <= j < to ==> !Unset(j)
    ensures UnsetFromParent(image', snapshot, parent, psp, a20)
  {
    hide Window, Unset;
  }

  lemma {:induction false} WordBytesIs(image: seq<byte>, at: nat, w: u16)
    requires at + 2 <= |image| && image[at..at + 2] == WordBytes(w)
    ensures WordIs(image, at, w)
  {
    assert image[at] == image[at..at + 2][0] && image[at + 1] == image[at..at + 2][1];
  }

  lemma {:induction false} SliceOfSlice(image: seq<byte>, at: nat, count: nat, i: nat, n: nat)
    requires at + count <= |image| && i + n <= count
    ensures image[at + i..at + i + n] == image[at..at + count][i..i + n]
  {
    var whole, left, right := image[at..at + count], image[at + i..at + i + n], image[at..at + count][i..i + n];
    forall j | 0 <= j < n ensures left[j] == right[j] {
      assert right[j] == whole[i + j] == image[at + (i + j)];
    }
  }

  lemma {:induction false} PointerBytesIs(image: seq<byte>, at: nat, p: FarPointer)
    requires at + 4 <= |image| && image[at..at + 4] == PointerBytes(p)
    ensures WordIs(image, at, p.offset) && WordIs(image, at + 2, p.segment)
  {
    hide WordIs;
    SliceOfSlice(image, at, 4, 0, 2);
    SliceOfSlice(image, at, 4, 2, 2);
    WordBytesIs(image, at, p.offset);
    WordBytesIs(image, at + 2, p.segment);
  }

  /** Opcodes, block end, system call and vectors. */
  lemma {:induction false} FieldsBytesBelow(staged: seq<byte>, request: PspRequest, jft: seq<byte>)
    requires |staged| == PSP_SIZE && |jft| == HANDLES
    requires request.psp < request.blockEnd && PSP_PARAGRAPHS <= request.blockEnd - request.psp
    ensures var image := SetFields(staged, Fields(request, jft));
      var cpm := CpmParagraphs(request.blockEnd - request.psp);
      && image[0x00] == 0xcd && image[0x01] == 0x20 && WordIs(image, 0x02, request.blockEnd)
      && image[0x05] == 0x9a && WordIs(image, 0x06, 16 * cpm) && WordIs(image, 0x08, CpmSegment(cpm))
      && WordIs(image, 0x0a, request.terminate.offset) && WordIs(image, 0x0c, request.terminate.segment)
      && WordIs(image, 0x0e, request.controlC.offset) && WordIs(image, 0x10, request.controlC.segment)
      && WordIs(image, 0x12, request.criticalError.offset) && WordIs(image, 0x14, request.criticalError.segment)
  {
    hide SetFields, WordBytes, PointerBytes, WordIs;
    var fields := Fields(request, jft);
    var image := SetFields(staged, fields);
    FieldStays(staged, fields, 0);
    assert image[0x00..0x02] == [0xcd, 0x20];
    assert image[0x00] == image[0x00..0x02][0] && image[0x01] == image[0x00..0x02][1];
    FieldStays(staged, fields, 1);
    WordBytesIs(image, 0x02, request.blockEnd);
    FieldStays(staged, fields, 2);
    SystemCallIs(image, CpmParagraphs(request.blockEnd - request.psp));
    FieldStays(staged, fields, 3);
    PointerBytesIs(image, 0x0a, request.terminate);
    FieldStays(staged, fields, 4);
    PointerBytesIs(image, 0x0e, request.controlC);
    FieldStays(staged, fields, 5);
    PointerBytesIs(image, 0x12, request.criticalError);
  }

  lemma {:induction false} SystemCallIs(image: seq<byte>, cpm: nat)
    requires |image| == PSP_SIZE && cpm <= CPM_MAX_PARAGRAPHS
    requires image[0x05..0x0a] == [0x9a] + WordBytes(16 * cpm) + WordBytes(CpmSegment(cpm))
    ensures image[0x05] == 0x9a && WordIs(image, 0x06, 16 * cpm) && WordIs(image, 0x08, CpmSegment(cpm))
  {
    hide WordIs, WordBytes;
    assert image[0x05] == image[0x05..0x0a][0];
    SliceOfSlice(image, 0x05, 5, 1, 2);
    SliceOfSlice(image, 0x05, 5, 3, 2);
    WordBytesIs(image, 0x06, 16 * cpm);
    WordBytesIs(image, 0x08, CpmSegment(cpm));
  }

  /** The list end and the system entry. */
  lemma {:induction false} FieldsBytesAbove(staged: seq<byte>, request: PspRequest, jft: seq<byte>)
    requires |staged| == PSP_SIZE && |jft| == HANDLES
    requires request.psp < request.blockEnd && PSP_PARAGRAPHS <= request.blockEnd - request.psp
    ensures var image := SetFields(staged, Fields(request, jft));
      && image[0x38] == 0xff && image[0x39] == 0xff && image[0x3a] == 0xff && image[0x3b] == 0xff
      && image[0x50] == 0xcd && image[0x51] == 0x21 && image[0x52] == 0xcb
  {
    hide SetFields, WordBytes, PointerBytes;
    var fields := Fields(request, jft);
    var image := SetFields(staged, fields);
    FieldStays(staged, fields, 11);
    var list := image[0x38..0x3c];
    assert list == [0xff, 0xff, 0xff, 0xff];
    assert image[0x38] == list[0] && image[0x39] == list[1] && image[0x3a] == list[2] && image[0x3b] == list[3];
    FieldStays(staged, fields, 12);
    var entry := image[0x50..0x53];
    assert entry == [0xcd, 0x21, 0xcb];
    assert image[0x50] == entry[0] && image[0x51] == entry[1] && image[0x52] == entry[2];
  }

  lemma {:induction false} FieldsBytes(staged: seq<byte>, request: PspRequest, jft: seq<byte>)
    requires |staged| == PSP_SIZE && |jft| == HANDLES
    requires request.psp < request.blockEnd && PSP_PARAGRAPHS <= request.blockEnd - request.psp
    ensures PspBytes(SetFields(staged, Fields(request, jft)), request, jft)
  {
    hide SetFields, Fields, WordBytes, WordIs;
    var image := SetFields(staged, Fields(request, jft));
    FieldsBytesBelow(staged, request, jft);
    FieldsBytesAbove(staged, request, jft);
    FieldsLaid(staged, request, jft);
    WordBytesIs(image, 0x16, request.parent);
    WordBytesIs(image, 0x2c, request.environment);
    WordBytesIs(image, 0x32, HANDLES);
    SliceOfSlice(image, 0x34, 4, 0, 2);
    SliceOfSlice(image, 0x34, 4, 2, 2);
    WordBytesIs(image, 0x34, JFT_OFFSET);
    WordBytesIs(image, 0x36, request.psp);
  }

  lemma {:induction false} PspBytesBelow(image: seq<byte>, image': seq<byte>, request: PspRequest, jft: seq<byte>)
    requires PspBytes(image, request, jft) && |image'| == PSP_SIZE && image'[..FIRST_FCB] == image[..FIRST_FCB]
    ensures PspBytes(image', request, jft)
  {
    forall j | 0 <= j < FIRST_FCB ensures image'[j] == image[j] {
      assert image'[..FIRST_FCB][j] == image[..FIRST_FCB][j];
    }
    SliceOfPrefix(image, 0x18, 0x2c);
    SliceOfPrefix(image', 0x18, 0x2c);
  }

  lemma {:induction false} SliceOfPrefix(image: seq<byte>, i: nat, j: nat)
    requires i <= j <= FIRST_FCB <= |image|
    ensures image[..FIRST_FCB][i..j] == image[i..j]
  {
  }

  lemma {:induction false} LaidBelow(image: seq<byte>, image': seq<byte>, request: PspRequest, jft: seq<byte>)
    requires Laid(image, request, jft) && |image'| == PSP_SIZE && image'[..FIRST_FCB] == image[..FIRST_FCB]
    ensures Laid(image', request, jft)
  {
    forall i, j | 0 <= i <= j <= FIRST_FCB
      ensures image'[i..j] == image[i..j]
    {
      SliceOfPrefix(image, i, j);
      SliceOfPrefix(image', i, j);
    }
  }

  // ---------- the reference: everything in place ----------

  /** The child's window after the word copy of the parent, as captured, ran in
      place; the rest of memory is as it is now. */
  function ParentCopied(m: Memory, snapshot: seq<byte>, parent: u16, psp: u16, a20: bool): (after: Memory)
    requires |snapshot| == PSP_SIZE && Within(Window(psp, a20), |m|) && Within(Window(parent, a20), |m|)
    ensures |after| == |m|
  {
    var captured := Store(m, Window(parent, a20), snapshot);
    Store(m, Window(psp, a20), Load(CopyWords(captured, Window(parent, a20), Window(psp, a20), PSP_SIZE / 2), Window(psp, a20)))
  }

  /** A parent that has not changed since it was captured is simply copied. */
  lemma {:induction false} ParentUnchanged(m: Memory, parent: u16, psp: u16, a20: bool)
    requires Within(Window(psp, a20), |m|) && Within(Window(parent, a20), |m|)
    ensures ParentCopied(m, Load(m, Window(parent, a20)), parent, psp, a20)
         == CopyWords(m, Window(parent, a20), Window(psp, a20), PSP_SIZE / 2)
  {
    hide Window, Shows, CopyWords, Store, Load;
    var window, source := Window(psp, a20), Window(parent, a20);
    WindowInjective(psp, a20);
    StoreRestores(m, m, source);
    var copied := CopyWords(m, source, window, PSP_SIZE / 2);
    CopyShows(m, source, window, PSP_SIZE / 2);
    ShowsStored(m, window, Load(copied, window));
    ShowsUnique(m, ParentCopied(m, Load(m, source), parent, psp, a20), copied, window, Load(copied, window));
  }

  /** A word copy changes nothing but its window. */
  lemma {:induction false} CopyShows(m: Memory, source: Addresses, window: Addresses, n: nat)
    requires Injective(window) && Within(window, |m|) && Within(source, |m|) && 2 * n == |window| && 2 * n <= |source|
    ensures Shows(m, CopyWords(m, source, window, n), window, |window|, Load(CopyWords(m, source, window, n), window))
  {
    hide CopyWords;
    CopyAgrees(m, source, window, n);
    assert window[..|window|] == window;
  }

  lemma {:induction false} CopyAgrees(m: Memory, source: Addresses, window: Addresses, k: nat)
    requires Within(window, |m|) && Within(source, |m|) && 2 * k <= |window| && 2 * k <= |source|
    ensures |CopyWords(m, source, window, k)| == |m|
    ensures forall a :: 0 <= a < |m| && a !in window ==> CopyWords(m, source, window, k)[a] == m[a]
    decreases k
  {
    if k > 0 { CopyAgrees(m, source, window, k - 1); }
  }

  /** Copy the captured parent by words, write the fields, copy both FCBs and the
      command tail by bytes, all directly in guest memory. */
  function InPlace(m: Memory, snapshot: seq<byte>, request: PspRequest, jft: seq<byte>, a20: bool): (after: Memory)
    requires request.psp < request.blockEnd && PSP_PARAGRAPHS <= request.blockEnd - request.psp && |jft| == HANDLES
    requires Reachable(m, request, a20) && |snapshot| == PSP_SIZE
    ensures |after| == |m|
  {
    var window := Window(request.psp, a20);
    var m1 := ParentCopied(m, snapshot, request.parent, request.psp, a20);
    var m2 := PutFields(m1, window, Fields(request, jft));
    SourcesInPlace(m2, request, a20)
  }

  function SourcesInPlace(m: Memory, request: PspRequest, a20: bool): (after: Memory)
    requires Reachable(m, request, a20)
    ensures |after| == |m|
  {
    var window := Window(request.psp, a20);
    var m1 := CopyBytes(m, Source(request.firstFcb, FCB_BYTES, a20), window, FIRST_FCB, FCB_BYTES);
    var m2 := PutBytes(m1, window, FIRST_FCB + FCB_BYTES, [0, 0, 0, 0]);
    var m3 := CopyBytes(m2, Source(request.secondFcb, FCB_BYTES, a20), window, SECOND_FCB, FCB_BYTES);
    var m4 := PutBytes(m3, window, SECOND_FCB + FCB_BYTES, [0, 0, 0, 0]);
    CopyBytes(m4, Source(request.tail, TAIL_BYTES, a20), window, COMMAND_TAIL, TAIL_BYTES)
  }

  predicate Reachable(m: Memory, request: PspRequest, a20: bool) {
    && Within(Window(request.psp, a20), |m|) && Within(Window(request.parent, a20), |m|)
    && Within(Source(request.firstFcb, FCB_BYTES, a20), |m|) && Within(Source(request.secondFcb, FCB_BYTES, a20), |m|)
    && Within(Source(request.tail, TAIL_BYTES, a20), |m|)
  }

  // ---------- the staged construction ----------

  /** Which staged byte, if any, a guest address names. */
  method StagedAlias(psp: u16, a20: bool, at: nat) returns (offset: nat)
    ensures offset == Alias(Window(psp, a20), at)
  {
    ghost var window := Window(psp, a20);
    offset := 0;
    while offset < PSP_SIZE
      invariant offset <= PSP_SIZE && forall j :: 0 <= j < offset ==> window[j] != at
    {
      assert window[offset] == FarAddress(psp, 0, offset, a20);
      if Linear(psp, Advance(0, offset), a20) == at {
        AliasFirst(window, at, offset);
        return;
      }
      offset := offset + 1;
    }
    assert at !in window;
  }

  lemma {:induction false} AliasFirst(window: Addresses, at: nat, i: nat)
    requires i < |window| && window[i] == at && forall j :: 0 <= j < i ==> window[j] != at
    ensures Alias(window, at) == i
    decreases i
  {
    if i > 0 { AliasFirst(window[1..], at, i - 1); }
  }

  /** Copy the parent's PSP word by word, seeing what earlier words wrote. */
  method StageParentCopy(psp: u16, parent: ParentSnapshot, ghost m0: Memory) returns (staged: seq<byte>)
    requires |parent.bytes| == PSP_SIZE
    requires Within(Window(psp, parent.a20), |m0|) && Within(Window(parent.segment, parent.a20), |m0|)
    requires parent.bytes == Load(m0, Window(parent.segment, parent.a20))
    ensures |staged| == PSP_SIZE
    ensures Shows(m0, CopyWords(m0, Window(parent.segment, parent.a20), Window(psp, parent.a20), PSP_SIZE / 2),
                  Window(psp, parent.a20), PSP_SIZE, staged)
    ensures forall j :: 0 <= j < PSP_SIZE && Window(parent.segment, parent.a20)[j] !in Window(psp, parent.a20) ==>
      staged[j] == parent.bytes[j]
  {
    hide Window, Shows, Alias;
    ghost var window, source := Window(psp, parent.a20), Window(parent.segment, parent.a20);
    WindowInjective(psp, parent.a20);
    staged := seq(PSP_SIZE, i => 0);
    ShowsNothing(m0, window, staged);
    for k := 0 to PSP_SIZE / 2
      invariant |staged| == PSP_SIZE && Shows(m0, CopyWords(m0, source, window, k), window, 2 * k, staged)
      invariant forall j :: 0 <= j < 2 * k && source[j] !in window ==> staged[j] == parent.bytes[j]
    {
      ghost var m := CopyWords(m0, source, window, k);
      var low := SourceByte(psp, parent, staged, 2 * k, 2 * k, m0, m);
      var high := SourceByte(psp, parent, staged, 2 * k, 2 * k + 1, m0, m);
      ShowsWord(m0, m, window, 2 * k, staged, low, high);
      staged := staged[2 * k := low][2 * k + 1 := high];
    }
  }

  /** The same from the captured bytes, over memory as it is now. */
  method StageCaptured(psp: u16, parent: ParentSnapshot, ghost m: Memory) returns (staged: seq<byte>)
    requires |parent.bytes| == PSP_SIZE
    requires Within(Window(psp, parent.a20), |m|) && Within(Window(parent.segment, parent.a20), |m|)
    ensures |staged| == PSP_SIZE
    ensures Shows(m, ParentCopied(m, parent.bytes, parent.segment, psp, parent.a20), Window(psp, parent.a20), PSP_SIZE, staged)
    ensures forall j :: 0 <= j < PSP_SIZE && Window(parent.segment, parent.a20)[j] !in Window(psp, parent.a20) ==>
      staged[j] == parent.bytes[j]
  {
    hide Window, Shows, CopyWords, Store, Load;
    ghost var source, window := Window(parent.segment, parent.a20), Window(psp, parent.a20);
    ghost var captured := Store(m, source, parent.bytes);
    WindowInjective(parent.segment, parent.a20);
    WindowInjective(psp, parent.a20);
    LoadAfterStore(m, source, parent.bytes);
    staged := StageParentCopy(psp, parent, captured);
    ShowsAll(captured, CopyWords(captured, source, window, PSP_SIZE / 2), window, staged);
    ShowsStored(m, window, staged);
  }

  /** One source byte as the in-place copy would find it. */
  method SourceByte(psp: u16, parent: ParentSnapshot, staged: seq<byte>, written: nat, index: nat, ghost m0: Memory,
                    ghost m: Memory)
    returns (value: byte)
    requires |parent.bytes| == PSP_SIZE == |staged| && index < PSP_SIZE && written <= PSP_SIZE
    requires Within(Window(psp, parent.a20), |m0|) && Within(Window(parent.segment, parent.a20), |m0|)
    requires parent.bytes == Load(m0, Window(parent.segment, parent.a20)) && |m| == |m0|
    requires Shows(m0, m, Window(psp, parent.a20), written, staged)
    ensures value == m[Window(parent.segment, parent.a20)[index]]
    ensures Window(parent.segment, parent.a20)[index] !in Window(psp, parent.a20) ==> value == parent.bytes[index]
  {
    hide Shows, Alias;
    WindowInjective(psp, parent.a20);
    ghost var at := Window(parent.segment, parent.a20)[index];
    assert at == Linear(parent.segment, Advance(0, index), parent.a20);
    var alias := StagedAlias(psp, parent.a20, Linear(parent.segment, Advance(0, index), parent.a20));
    ShowsRead(m0, m, Window(psp, parent.a20), written, staged, at);
    value := if alias < PSP_SIZE && alias < written then staged[alias] else parent.bytes[index];
  }

  lemma {:induction false} WindowInjective(psp: u16, a20: bool)
    ensures Injective(Window(psp, a20))
  {
    FarRangeInjective(psp, 0, PSP_SIZE, a20);
  }

  lemma {:induction false} ShowsNothing(m: Memory, window: Addresses, staged: seq<byte>)
    requires |window| == |staged| && Within(window, |m|)
    ensures Shows(m, m, window, 0, staged)
  {
  }

  /** Does any source byte lie in the staged PSP? */
  method SourceAliases(psp: u16, a20: bool, source: FarPointer, count: nat) returns (aliases: bool)
    ensures aliases <==> exists i :: 0 <= i < count && Source(source, count, a20)[i] in Window(psp, a20)
  {
    hide Window, Alias;
    ghost var range := Source(source, count, a20);
    for index := 0 to count
      invariant forall i :: 0 <= i < index ==> range[i] !in Window(psp, a20)
    {
      assert range[index] == Linear(source.segment, Advance(source.offset, index), a20);
      var alias := StagedAlias(psp, a20, Linear(source.segment, Advance(source.offset, index), a20));
      AliasBound(Window(psp, a20), range[index]);
      if alias < PSP_SIZE { return true; }
    }
    return false;
  }

  lemma {:induction false} AliasBound(window: Addresses, at: nat)
    ensures Alias(window, at) == |window| <==> at !in window
  {
  }

  /** A forward byte copy into the staged PSP, as if it ran in place. */
  method StageRepMovsb(machine: Machine, source: FarPointer, psp: u16, staged: seq<byte>, at: nat, count: nat, ghost m: Memory)
    returns (status: ProcessStatus, after: seq<byte>)
    requires machine.Valid() && |staged| == PSP_SIZE && at + count <= PSP_SIZE
    requires Within(Window(psp, machine.a20), |machine.mem|) && Within(Source(source, count, machine.a20), |machine.mem|)
    requires Shows(machine.mem, m, Window(psp, machine.a20), PSP_SIZE, staged) && |m| == |machine.mem|
    modifies machine`faults
    ensures status in {ProcessOk, ProcessFault} && |after| == PSP_SIZE && machine.faults >= old(machine.faults)
    ensures forall j :: 0 <= j < PSP_SIZE && !(at <= j < at + count) ==> after[j] == staged[j]
    ensures status == ProcessOk ==>
      && Shows(machine.mem, CopyBytes(m, Source(source, count, machine.a20), Window(psp, machine.a20), at, count),
               Window(psp, machine.a20), PSP_SIZE, after)
      && CopiedFrom(after, at, machine.mem, source, count, psp, machine.a20)
    ensures machine.faults == old(machine.faults) ==> status == ProcessOk
  {
    hide Window, Shows, Alias, Load;
    ghost var window, range := Window(psp, machine.a20), Source(source, count, machine.a20);
    WindowInjective(psp, machine.a20);
    after := staged;
    var aliases := SourceAliases(psp, machine.a20, source, count);
    if !aliases {
      var read, bytes := machine.ReadFar(source.segment, source.offset, count);
      if read != Ok { return ProcessFault, after; }
      ShowsCopyApart(machine.mem, m, range, window, staged, at, count);
      WholeLoad(machine.mem, range);
      after := Overwrite(staged, at, bytes);
      OverwrittenFrom(machine.mem, staged, at, source, count, psp, machine.a20);
      return ProcessOk, after;
    }
    status, after := StageOverlapping(machine, source, psp, staged, at, count, m);
  }

  /** The copy byte by byte, for a source that runs into the staged PSP. */
  method StageOverlapping(machine: Machine, source: FarPointer, psp: u16, staged: seq<byte>, at: nat, count: nat,
                          ghost m: Memory)
    returns (status: ProcessStatus, after: seq<byte>)
    requires machine.Valid() && |staged| == PSP_SIZE && at + count <= PSP_SIZE
    requires Within(Window(psp, machine.a20), |machine.mem|) && Within(Source(source, count, machine.a20), |machine.mem|)
    requires Shows(machine.mem, m, Window(psp, machine.a20), PSP_SIZE, staged) && |m| == |machine.mem|
    modifies machine`faults
    ensures status in {ProcessOk, ProcessFault} && |after| == PSP_SIZE && machine.faults >= old(machine.faults)
    ensures forall j :: 0 <= j < PSP_SIZE && !(at <= j < at + count) ==> after[j] == staged[j]
    ensures status == ProcessOk ==>
      && Shows(machine.mem, CopyBytes(m, Source(source, count, machine.a20), Window(psp, machine.a20), at, count),
               Window(psp, machine.a20), PSP_SIZE, after)
      && CopiedFrom(after, at, machine.mem, source, count, psp, machine.a20)
    ensures machine.faults == old(machine.faults) ==> status == ProcessOk
  {
    hide Window, Shows, Alias, Load;
    ghost var window, range := Window(psp, machine.a20), Source(source, count, machine.a20);
    WindowInjective(psp, machine.a20);
    after := staged;
    for index := 0 to count
      invariant |after| == PSP_SIZE && machine.faults == old(machine.faults)
      invariant forall j :: 0 <= j < PSP_SIZE && !(at <= j < at + index) ==> after[j] == staged[j]
      invariant forall i :: 0 <= i < index && range[i] !in window ==> after[at + i] == machine.mem[range[i]]
      invariant Shows(machine.mem, CopyBytes(m, range, window, at, index), window, PSP_SIZE, after)
    {
      ghost var before := CopyBytes(m, range, window, at, index);
      assert range[index] == Linear(source.segment, Advance(source.offset, index), machine.a20);
      var value: byte;
      status, value := CurrentByte(machine, source, index, psp, after, range[index], before);
      if status != ProcessOk { return; }
      ShowsPut(machine.mem, before, window, after, at + index, value);
      after := after[at + index := value];
    }
    return ProcessOk, after;
  }

  /** One source byte: from the staged PSP if it lies there, from memory if not. */
  method CurrentByte(machine: Machine, source: FarPointer, index: nat, psp: u16, staged: seq<byte>, ghost address: nat,
                     ghost m: Memory)
    returns (status: ProcessStatus, value: byte)
    requires machine.Valid() && |staged| == PSP_SIZE && address < |machine.mem| == |m|
    requires address == Linear(source.segment, Advance(source.offset, index), machine.a20)
    requires Within(Window(psp, machine.a20), |machine.mem|)
      && Shows(machine.mem, m, Window(psp, machine.a20), PSP_SIZE, staged)
    modifies machine`faults
    ensures status in {ProcessOk, ProcessFault} && machine.faults >= old(machine.faults)
    ensures status == ProcessOk ==> value == m[address] && machine.faults == old(machine.faults)
    ensures status == ProcessOk && address !in Window(psp, machine.a20) ==> value == machine.mem[address]
    ensures machine.faults == old(machine.faults) ==> status == ProcessOk
  {
    hide Window, Shows, Alias, Load;
    value := 0;
    WindowInjective(psp, machine.a20);
    var alias := StagedAlias(psp, machine.a20, Linear(source.segment, Advance(source.offset, index), machine.a20));
    ShowsRead(machine.mem, m, Window(psp, machine.a20), PSP_SIZE, staged, address);
    if alias < PSP_SIZE { return ProcessOk, staged[alias]; }
    OneByte(machine.mem, source, index, machine.a20);
    var read, bytes := machine.ReadFar(source.segment, Advance(source.offset, index), 1);
    if read != Ok { return ProcessFault, 0; }
    return ProcessOk, bytes[0];
  }

  lemma {:induction false} OverwrittenFrom(m: Memory, staged: seq<byte>, at: nat, source: FarPointer, count: nat, psp: u16,
                                           a20: bool)
    requires |staged| == PSP_SIZE && at + count <= PSP_SIZE && Within(Source(source, count, a20), |m|)
    ensures var after := Overwrite(staged, at, Load(m, Source(source, count, a20)));
      && (forall j :: 0 <= j < PSP_SIZE && !(at <= j < at + count) ==> after[j] == staged[j])
      && CopiedFrom(after, at, m, source, count, psp, a20)
  {
    hide Source, Window;
  }

  lemma {:induction false} WholeLoad(m: Memory, range: Addresses)
    requires Within(range, |m|)
    ensures Load(m, range)[..|range|] == Load(m, range)
  {
  }

  lemma {:induction false} OneByte(m: Memory, source: FarPointer, index: nat, a20: bool)
    requires Linear(source.segment, Advance(source.offset, index), a20) < |m|
    ensures var range := FarRange(source.segment, Advance(source.offset, index), 1, a20);
      Within(range, |m|) && Load(m, range) == [m[Linear(source.segment, Advance(source.offset, index), a20)]]
  {
    var range := FarRange(source.segment, Advance(source.offset, index), 1, a20);
    assert range[0] == Linear(source.segment, Advance(source.offset, index), a20);
  }

  /** The staged PSP is, byte for byte, what the child's 256 bytes would hold if
      everything had been done in place, however parent, FCBs, tail and child
      overlap.  Guest memory is only read. */
  method PreparePsp(machine: Machine, parent: ParentSnapshot, request: PspRequest, jft: seq<byte>)
    returns (status: ProcessStatus, image: seq<byte>)
    requires machine.Valid() && |jft| == HANDLES
    requires |parent.bytes| == PSP_SIZE && Within(Window(parent.segment, parent.a20), parent.limit)
    modifies machine`faults
    ensures machine.faults >= old(machine.faults)
    ensures status == ProcessOk ==>
      && request.psp < request.blockEnd && PSP_PARAGRAPHS <= request.blockEnd - request.psp
      && request.parent == parent.segment && Reachable(machine.mem, request, machine.a20)
      && image == Load(InPlace(machine.mem, parent.bytes, request, jft, machine.a20), Window(request.psp, machine.a20))
      && Laid(image, request, jft) && PspBytes(image, request, jft)
      && PspCopies(image, machine.mem, parent.bytes, request, machine.a20)
    ensures parent.context == machine.context && parent.limit == |machine.mem| && parent.a20 == machine.a20
            && parent.segment == request.parent && request.psp < request.blockEnd
            && PSP_PARAGRAPHS <= request.blockEnd - request.psp && Reachable(machine.mem, request, machine.a20) ==>
      status == ProcessOk || machine.faults > old(machine.faults)
  {
    hide Window, Shows, Alias, Load, Source, Fields, ParentCopied, SourcesInPlace, PutFields, SetFields, Laid, PspBytes,
      PspCopies, UnsetFromParent;
    image := [];
    if parent.context != machine.context || parent.limit != |machine.mem| || parent.a20 != machine.a20
       || parent.segment != request.parent {
      return StaleParent, image;
    }
    if request.blockEnd <= request.psp || request.blockEnd - request.psp < PSP_PARAGRAPHS { return InvalidPsp, image; }
    var valid := ValidateRequest(machine, request);
    if !valid { return ProcessFault, image; }
    ghost var m0, window := machine.mem, Window(request.psp, machine.a20);
    var staged := StageCaptured(request.psp, parent, m0);
    ghost var m1 := ParentCopied(m0, parent.bytes, request.parent, request.psp, machine.a20);
    WindowInjective(request.psp, machine.a20);
    ShowsFields(m0, m1, window, staged, Fields(request, jft));
    ghost var m := PutFields(m1, window, Fields(request, jft));
    FieldsLaid(staged, request, jft);
    FieldsBytes(staged, request, jft);
    UnsetStays(staged, parent.bytes, parent.segment, request, jft, machine.a20);
    staged := SetFields(staged, Fields(request, jft));
    status, image := StageSources(machine, request, staged, parent.bytes, m0, m);
    if status != ProcessOk { return; }
    ShowsAll(m0, InPlace(m0, parent.bytes, request, jft, machine.a20), window, image);
    LaidBelow(staged, image, request, jft);
    PspBytesBelow(staged, image, request, jft);
  }

  /** Both FCBs and the command tail, behind the fields. */
  method StageSources(machine: Machine, request: PspRequest, staged: seq<byte>, ghost snapshot: seq<byte>, ghost m0: Memory,
                      ghost m: Memory) returns (status: ProcessStatus, image: seq<byte>)
    requires machine.Valid() && |staged| == PSP_SIZE == |snapshot| && m0 == machine.mem && |m| == |m0|
    requires Reachable(machine.mem, request, machine.a20)
    requires Shows(m0, m, Window(request.psp, machine.a20), PSP_SIZE, staged)
    requires UnsetFromParent(staged, snapshot, request.parent, request.psp, machine.a20)
    modifies machine`faults
    ensures status in {ProcessOk, ProcessFault} && |image| == PSP_SIZE && machine.faults >= old(machine.faults)
    ensures status == ProcessOk ==>
      && Shows(m0, SourcesInPlace(m, request, machine.a20), Window(request.psp, machine.a20), PSP_SIZE, image)
      && PspCopies(image, machine.mem, snapshot, request, machine.a20) && image[..FIRST_FCB] == staged[..FIRST_FCB]
    ensures machine.faults == old(machine.faults) ==> status == ProcessOk
  {
    hide Window, Shows, Alias, Load, Source, CopyBytes, PutBytes, CopiedFrom, UnsetFromParent;
    var a20 := machine.a20;
    ghost var m1, m2;
    var first, second;
    status, first, m1 := StageFcb(machine, request.firstFcb, request.psp, staged, FIRST_FCB, m);
    if status != ProcessOk { return status, first; }
    UnsetKept(staged, first, snapshot, request.parent, request.psp, a20, 0x5c, 0x6c);
    status, second, m2 := StageFcb(machine, request.secondFcb, request.psp, first, SECOND_FCB, m1);
    if status != ProcessOk { return status, second; }
    UnsetKept(first, second, snapshot, request.parent, request.psp, a20, 0x6c, 0x7c);
    CopiedStays(first, second, 0x5c, machine.mem, request.firstFcb, 12, request.psp, a20, 0x6c, 0x7c);
    SliceStays(first, second, 0x68, 0x6c, 0x6c, 0x7c);
    status, image := StageRepMovsb(machine, request.tail, request.psp, second, COMMAND_TAIL, TAIL_BYTES, m2);
    if status != ProcessOk { return; }
    UnsetKept(second, image, snapshot, request.parent, request.psp, a20, 0x80, 0x100);
    CopiedStays(second, image, 0x5c, machine.mem, request.firstFcb, 12, request.psp, a20, 0x80, 0x100);
    CopiedStays(second, image, 0x6c, machine.mem, request.secondFcb, 12, request.psp, a20, 0x80, 0x100);
    SliceStays(second, image, 0x68, 0x6c, 0x80, 0x100);
    SliceStays(second, image, 0x78, 0x7c, 0x80, 0x100);
    SliceStays(staged, first, 0, FIRST_FCB, 0x5c, 0x6c);
    SliceStays(first, second, 0, FIRST_FCB, 0x6c, 0x7c);
    SliceStays(second, image, 0, FIRST_FCB, 0x80, 0x100);
    assert staged[0..FIRST_FCB] == staged[..FIRST_FCB] && image[0..FIRST_FCB] == image[..FIRST_FCB];
  }

  lemma {:induction false} SliceStays(image: seq<byte>, image': seq<byte>, i: nat, j: nat, from: nat, to: nat)
    requires i <= j <= |image| == |image'| && (j <= from || to <= i)
    requires forall k :: 0 <= k < |image| && !(from <= k < to) ==> image'[k] == image[k]
    ensures image'[i..j] == image[i..j]
  {
  }

  /** Twelve bytes of an FCB, then four zeroes. */
  method StageFcb(machine: Machine, source: FarPointer, psp: u16, staged: seq<byte>, at: nat, ghost m: Memory)
    returns (status: ProcessStatus, after: seq<byte>, ghost m': Memory)
    requires machine.Valid() && |staged| == PSP_SIZE && at + FCB_BYTES + 4 <= PSP_SIZE
    requires Within(Window(psp, machine.a20), |machine.mem|) && Within(Source(source, FCB_BYTES, machine.a20), |machine.mem|)
    requires Shows(machine.mem, m, Window(psp, machine.a20), PSP_SIZE, staged) && |m| == |machine.mem|
    modifies machine`faults
    ensures status in {ProcessOk, ProcessFault} && |after| == PSP_SIZE && machine.faults >= old(machine.faults) && |m'| == |m|
    ensures forall j :: 0 <= j < PSP_SIZE && !(at <= j < at + FCB_BYTES + 4) ==> after[j] == staged[j]
    ensures status == ProcessOk ==>
      && CopiedFrom(after, at, machine.mem, source, FCB_BYTES, psp, machine.a20)
      && after[at + FCB_BYTES..at + FCB_BYTES + 4] == [0, 0, 0, 0]
      && m' == PutBytes(CopyBytes(m, Source(source, FCB_BYTES, machine.a20), Window(psp, machine.a20), at, FCB_BYTES),
                        Window(psp, machine.a20), at + FCB_BYTES, [0, 0, 0, 0])
      && Shows(machine.mem, m', Window(psp, machine.a20), PSP_SIZE, after)
    ensures machine.faults == old(machine.faults) ==> status == ProcessOk
  {
    hide Window, Shows, Source, CopyBytes, PutBytes;
    m' := m;
    status, after := StageRepMovsb(machine, source, psp, staged, at, FCB_BYTES, m);
    if status != ProcessOk { return; }
    WindowInjective(psp, machine.a20);
    ghost var copied := CopyBytes(m, Source(source, FCB_BYTES, machine.a20), Window(psp, machine.a20), at, FCB_BYTES);
    ShowsPutBytes(machine.mem, copied, Window(psp, machine.a20), after, at + FCB_BYTES, [0, 0, 0, 0]);
    after, m' := Overwrite(after, at + FCB_BYTES, [0, 0, 0, 0]),
      PutBytes(copied, Window(psp, machine.a20), at + FCB_BYTES, [0, 0, 0, 0]);
  }

  method ValidateRequest(machine: Machine, request: PspRequest) returns (ok: bool)
    requires machine.Valid() && Within(Window(request.parent, machine.a20), |machine.mem|)
    modifies machine`faults
    ensures machine.faults >= old(machine.faults)
    ensures ok ==> Reachable(machine.mem, request, machine.a20) && machine.faults == old(machine.faults)
    ensures Reachable(machine.mem, request, machine.a20) ==> ok || machine.faults > old(machine.faults)
  {
    hide FarRange;
    var status := machine.ValidateFar(request.psp, 0, PSP_SIZE);
    if status != Ok { return false; }
    status := machine.ValidateFar(request.firstFcb.segment, request.firstFcb.offset, FCB_BYTES);
    if status != Ok { return false; }
    status := machine.ValidateFar(request.secondFcb.segment, request.secondFcb.offset, FCB_BYTES);
    if status != Ok { return false; }
    status := machine.ValidateFar(request.tail.segment, request.tail.offset, TAIL_BYTES);
    return status == Ok;
  }
}

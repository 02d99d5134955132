/** The PSP a launch puts in place is where the file system finds its table. */
module PspFiles {
  import opened GuestMemory
  import opened McbChain
  import opened PspBuild
  import opened FileLink
  import JobFileTable

  /** A stretch of the PSP, read through its segment. */
  lemma {:induction false} WindowPiece(m: Memory, image: seq<byte>, psp: u16, a20: bool, offset: nat, count: nat)
    requires |image| == PSP_SIZE && offset + count <= PSP_SIZE && Within(Window(psp, a20), |m|)
    ensures var range := FarRange(psp, offset, count, a20);
      && Within(range, |m|) && (forall i :: 0 <= i < count ==> range[i] == Window(psp, a20)[offset + i])
      && Load(Store(m, Window(psp, a20), image), range) == image[offset..offset + count]
  {
    hide Store;
    var window, range := Window(psp, a20), FarRange(psp, offset, count, a20);
    WindowInjective(psp, a20);
    LoadAfterStore(m, window, image);
    forall i | 0 <= i < count
      ensures range[i] == window[offset + i] && Store(m, window, image)[range[i]] == image[offset + i]
    {
      assert Load(Store(m, window, image), window)[offset + i] == image[offset + i];
    }
  }

  /** The control bytes of a laid-out PSP name its own table of twenty handles. */
  lemma {:induction false} ControlLaid(image: seq<byte>, request: PspRequest, jft: seq<byte>)
    requires Laid(image, request, jft)
    ensures JobFileTable.DecodeControl(image[0x32..0x38]) == JobFileTable.JftControl(HANDLES, request.psp, JFT_OFFSET)
  {
    hide Word, Lo, Hi;
    var bytes := image[0x32..0x38];
    assert bytes[0..2] == image[0x32..0x34] && bytes[2..6] == image[0x34..0x38];
    assert bytes[0] == bytes[0..2][0] && bytes[1] == bytes[0..2][1];
    assert bytes[2] == bytes[2..6][0] && bytes[3] == bytes[2..6][1] && bytes[4] == bytes[2..6][2] && bytes[5] == bytes[2..6][3];
    WordRoundTrip(HANDLES);
    WordRoundTrip(JFT_OFFSET);
    WordRoundTrip(request.psp);
  }

  /** Written at its segment, the PSP is found with exactly the child's table. */
  lemma {:induction false} PspInPlace(m: Memory, image: seq<byte>, request: PspRequest, jft: seq<byte>, a20: bool)
    requires Laid(image, request, jft) && Within(Window(request.psp, a20), |m|)
    ensures var after := Store(m, Window(request.psp, a20), image);
      && JobFileTable.Mapped(after, request.psp, a20) && JobFileTable.JftAt(after, request.psp, a20) == jft
      && JobFileTable.ControlAt(after, request.psp, a20) == JobFileTable.JftControl(HANDLES, request.psp, JFT_OFFSET)
  {
    hide Store, Load, FarRange, Laid, JobFileTable.DecodeControl;
    TableOf(image, request, jft);
    WindowPiece(m, image, request.psp, a20, 0x32, 6);
    WindowPiece(m, image, request.psp, a20, JFT_OFFSET, HANDLES);
    ControlLaid(image, request, jft);
  }

  lemma {:induction false} TableOf(image: seq<byte>, request: PspRequest, jft: seq<byte>)
    requires Laid(image, request, jft)
    ensures |image| == PSP_SIZE && image[JFT_OFFSET..JFT_OFFSET + HANDLES] == jft
  {
  }

  /** The new PSP lies clear of what a live process finds its files through. */
  predicate ClearOf(m: Memory, psp: u16, a20: bool, q: u16)
    requires JobFileTable.Mapped(m, q, a20)
  {
    && JobFileTable.Disjoint(Window(psp, a20), JobFileTable.ControlRange(q, a20))
    && JobFileTable.Disjoint(Window(psp, a20), JobFileTable.JftRange(JobFileTable.ControlAt(m, q, a20), a20))
  }

  lemma {:induction false} LoadBeside(m: Memory, window: Addresses, bytes: seq<byte>, range: Addresses)
    requires |bytes| == |window| && Within(window, |m|) && Within(range, |m|) && JobFileTable.Disjoint(window, range)
    ensures Load(Store(m, window, bytes), range) == Load(m, range)
  {
    hide Store;
    StoreFrame(m, window, bytes);
    forall i | 0 <= i < |range| ensures Store(m, window, bytes)[range[i]] == m[range[i]] {
      assert range[i] in range;
    }
  }

  /** Writing the PSP leaves the other processes' tables alone. */
  lemma {:induction false} OthersStay(m: Memory, image: seq<byte>, psp: u16, a20: bool, q: u16)
    requires |image| == PSP_SIZE && Within(Window(psp, a20), |m|) && JobFileTable.Mapped(m, q, a20) && ClearOf(m, psp, a20, q)
    ensures var after := Store(m, Window(psp, a20), image);
      && JobFileTable.Mapped(after, q, a20) && JobFileTable.ControlAt(after, q, a20) == JobFileTable.ControlAt(m, q, a20)
      && JobFileTable.JftAt(after, q, a20) == JobFileTable.JftAt(m, q, a20)
  {
    hide Store, Load, FarRange, JobFileTable.Disjoint, JobFileTable.DecodeControl;
    LoadBeside(m, Window(psp, a20), image, JobFileTable.ControlRange(q, a20));
    LoadBeside(m, Window(psp, a20), image, JobFileTable.JftRange(JobFileTable.ControlAt(m, q, a20), a20));
  }

  /** Table and control bytes of the new PSP lie in its window, apart. */
  lemma {:induction false} OwnRanges(m: Memory, psp: u16, a20: bool)
    requires Within(Window(psp, a20), |m|)
    ensures var table := FarRange(psp, JFT_OFFSET, HANDLES, a20);
      && (forall x :: x in table ==> x in Window(psp, a20))
      && (forall x :: x in JobFileTable.ControlRange(psp, a20) ==> x in Window(psp, a20))
      && JobFileTable.Disjoint(table, JobFileTable.ControlRange(psp, a20))
  {
    var window, zeroes := Window(psp, a20), seq(PSP_SIZE, i => 0);
    var table, control := FarRange(psp, JFT_OFFSET, HANDLES, a20), JobFileTable.ControlRange(psp, a20);
    hide Window, FarRange, JobFileTable.ControlRange;
    assert control == FarRange(psp, 0x32, 6, a20) by { ControlIs(psp, a20); }
    WindowPiece(m, zeroes, psp, a20, JFT_OFFSET, HANDLES);
    WindowPiece(m, zeroes, psp, a20, 0x32, 6);
    WindowInjective(psp, a20);
    forall x | x in table ensures x !in control && x in window {
      var i :| 0 <= i < HANDLES && table[i] == x;
      assert window[JFT_OFFSET + i] == x;
      forall j | 0 <= j < 6 ensures control[j] != x { assert window[0x32 + j] == control[j]; }
    }
    forall x | x in control ensures x in window {
      var j :| 0 <= j < 6 && control[j] == x;
      assert window[0x32 + j] == x;
    }
  }

  lemma {:induction false} ControlIs(psp: u16, a20: bool)
    ensures JobFileTable.ControlRange(psp, a20) == FarRange(psp, 0x32, 6, a20)
  {
  }

  /** Once the PSP is in place, everything a commit asks of guest memory holds,
      and the books of the live processes are as before. */
  lemma {:induction false} ReadyToCommit(m: Memory, a20: bool, live: seq<u16>, jfts: seq<seq<byte>>, image: seq<byte>,
                                         request: PspRequest, jft: seq<byte>)
    requires Linked(m, a20, live, jfts) && Laid(image, request, jft) && Within(Window(request.psp, a20), |m|)
    requires forall i :: 0 <= i < |live| ==> ClearOf(m, request.psp, a20, live[i])
    ensures var after := Store(m, Window(request.psp, a20), image);
      && Linked(after, a20, live, jfts) && JobFileTable.Mapped(after, request.psp, a20)
      && JobFileTable.JftAt(after, request.psp, a20) == jft && Apart(after, a20, live + [request.psp])
  {
    hide Store, Window, Laid, FarRange, JobFileTable.Mapped, JobFileTable.JftAt, JobFileTable.ControlAt, ClearOf, PairApart;
    TableOf(image, request, jft);
    PspInPlace(m, image, request, jft, a20);
    var psp, after := request.psp, Store(m, Window(request.psp, a20), image);
    var all := live + [psp];
    forall i | 0 <= i < |live|
      ensures JobFileTable.Mapped(after, live[i], a20)
        && JobFileTable.JftAt(after, live[i], a20) == JobFileTable.JftAt(m, live[i], a20)
    {
      OthersStay(m, image, psp, a20, live[i]);
    }
    forall i, j | 0 <= i < |live| && 0 <= j < |live|
      ensures PairApart(after, a20, live[i], live[j], i == j)
    {
      OthersApart(m, image, psp, a20, live[i], live[j], i == j);
    }
    forall i, j | 0 <= i < |all| && 0 <= j < |all|
      ensures PairApart(after, a20, all[i], all[j], i == j)
    {
      if i < |live| && j < |live| {
        assert all[i] == live[i] && all[j] == live[j];
      } else if i < |live| {
        NewApart(m, image, request, jft, a20, live[i]);
      } else if j < |live| {
        NewApart(m, image, request, jft, a20, live[j]);
      } else {
        AloneApart(m, image, request, jft, a20);
      }
    }
  }

  lemma {:induction false} OthersApart(m: Memory, image: seq<byte>, psp: u16, a20: bool, p: u16, q: u16, same: bool)
    requires |image| == PSP_SIZE && Within(Window(psp, a20), |m|)
    requires JobFileTable.Mapped(m, p, a20) && ClearOf(m, psp, a20, p) && JobFileTable.Mapped(m, q, a20)
      && ClearOf(m, psp, a20, q)
    requires PairApart(m, a20, p, q, same)
    ensures var after := Store(m, Window(psp, a20), image);
      JobFileTable.Mapped(after, p, a20) && JobFileTable.Mapped(after, q, a20) && PairApart(after, a20, p, q, same)
  {
    hide Store, JobFileTable.Mapped, JobFileTable.JftAt, JobFileTable.ControlAt, ClearOf, JobFileTable.Disjoint;
    OthersStay(m, image, psp, a20, p);
    OthersStay(m, image, psp, a20, q);
  }

  /** The new table and another process's, in both directions. */
  lemma {:induction false} NewApart(m: Memory, image: seq<byte>, request: PspRequest, jft: seq<byte>, a20: bool, q: u16)
    requires Laid(image, request, jft) && Within(Window(request.psp, a20), |m|)
    requires JobFileTable.Mapped(m, q, a20) && ClearOf(m, request.psp, a20, q)
    ensures var after := Store(m, Window(request.psp, a20), image);
      && |image| == PSP_SIZE && JobFileTable.Mapped(after, request.psp, a20) && JobFileTable.Mapped(after, q, a20)
      && PairApart(after, a20, q, request.psp, false) && PairApart(after, a20, request.psp, q, false)
  {
    hide Store, Laid, FarRange, JobFileTable.Mapped, JobFileTable.JftAt, JobFileTable.ControlAt;
    TableOf(image, request, jft);
    PspInPlace(m, image, request, jft, a20);
    OthersStay(m, image, request.psp, a20, q);
    OwnRanges(m, request.psp, a20);
  }

  lemma {:induction false} AloneApart(m: Memory, image: seq<byte>, request: PspRequest, jft: seq<byte>, a20: bool)
    requires Laid(image, request, jft) && Within(Window(request.psp, a20), |m|)
    ensures var after := Store(m, Window(request.psp, a20), image);
      |image| == PSP_SIZE && JobFileTable.Mapped(after, request.psp, a20)
        && PairApart(after, a20, request.psp, request.psp, true)
  {
    hide Store, Laid, FarRange, JobFileTable.Mapped, JobFileTable.JftAt, JobFileTable.ControlAt, JobFileTable.Disjoint;
    TableOf(image, request, jft);
    PspInPlace(m, image, request, jft, a20);
    OwnRanges(m, request.psp, a20);
  }
}

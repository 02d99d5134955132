/** Job file tables of live processes, in guest memory. */
module FileLink {
  import opened GuestMemory
  import opened JobFileTable
  import opened FileTally

  /** Writing an entry of `p`'s table disturbs neither `q`'s control bytes nor,
      for another process, its table. */
  predicate PairApart(m: Memory, a20: bool, p: u16, q: u16, same: bool)
    requires Mapped(m, p, a20) && Mapped(m, q, a20)
  {
    var range := JftRange(ControlAt(m, p, a20), a20);
    Disjoint(range, ControlRange(q, a20)) && (same || Disjoint(range, JftRange(ControlAt(m, q, a20), a20)))
  }

  /** The tables of live processes are all in memory and apart. */
  predicate Apart(m: Memory, a20: bool, live: seq<u16>) {
    && (forall i :: 0 <= i < |live| ==> Mapped(m, live[i], a20))
    && (forall i, j :: 0 <= i < |live| && 0 <= j < |live| ==> PairApart(m, a20, live[i], live[j], i == j))
  }

  /** `jfts` are the contents of the live tables. */
  ghost predicate Linked(m: Memory, a20: bool, live: seq<u16>, jfts: seq<seq<byte>>) {
    && |live| == |jfts| && Apart(m, a20, live)
    && forall i :: 0 <= i < |live| ==> jfts[i] == JftAt(m, live[i], a20)
  }

  lemma {:induction false} LinkView(m: Memory, a20: bool, live: seq<u16>, jfts: seq<seq<byte>>, p: nat)
    requires Linked(m, a20, live, jfts) && p < |live|
    ensures |jfts| == |live| && Mapped(m, live[p], a20) && jfts[p] == JftAt(m, live[p], a20)
  {
  }

  lemma {:induction false} LoadKept(m: Memory, range: Addresses, at: nat, b: byte)
    requires Within(range, |m|) && at < |m| && at !in range
    ensures Load(m[at := b], range) == Load(m, range)
  {
  }

  lemma {:induction false} LoadPoked(m: Memory, range: Addresses, i: nat, b: byte)
    requires Within(range, |m|) && i < |range| && Injective(range)
    ensures range[i] < |m|
    ensures Load(m[range[i] := b], range) == Load(m, range)[i := b]
  {
  }

  lemma {:induction false} LinkOther(m: Memory, a20: bool, p: u16, q: u16, jfn: nat, b: byte, same: bool)
    requires Mapped(m, p, a20) && Mapped(m, q, a20) && PairApart(m, a20, p, q, same)
    requires same ==> p == q
    requires jfn < ControlAt(m, p, a20).length
    ensures var at := JftRange(ControlAt(m, p, a20), a20)[jfn];
      var m' := if at < |m| then m[at := b] else m;
      && at < |m| && Mapped(m', q, a20) && ControlAt(m', q, a20) == ControlAt(m, q, a20)
      && JftAt(m', q, a20) == if same then JftAt(m, q, a20)[jfn := b] else JftAt(m, q, a20)
  {
    hide FarRange, Load, DecodeControl;
    var range := JftRange(ControlAt(m, p, a20), a20);
    var at := range[jfn];
    assert at in range;
    LoadKept(m, ControlRange(q, a20), at, b);
    if same {
      FarRangeInjective(ControlAt(m, p, a20).segment, ControlAt(m, p, a20).offset, ControlAt(m, p, a20).length, a20);
      LoadPoked(m, range, jfn, b);
    } else {
      LoadKept(m, JftRange(ControlAt(m, q, a20), a20), at, b);
    }
  }

  /** Changing one entry of one live table changes that entry and nothing else. */
  lemma {:induction false} LinkPoke(m: Memory, a20: bool, live: seq<u16>, jfts: seq<seq<byte>>, p: nat, jfn: nat, b: byte)
    requires Linked(m, a20, live, jfts) && p < |live| && jfn < |jfts[p]|
    ensures var at := JftRange(ControlAt(m, live[p], a20), a20)[jfn];
      at < |m| && Linked(m[at := b], a20, live, Poke(jfts, p, jfn, b))
  {
    hide ControlAt, JftRange, ControlRange, JftAt, Within;
    var at := JftRange(ControlAt(m, live[p], a20), a20)[jfn];
    LinkOther(m, a20, live[p], live[p], jfn, b, true);
    var m', after := m[at := b], Poke(jfts, p, jfn, b);
    forall j | 0 <= j < |live|
      ensures Mapped(m', live[j], a20) && ControlAt(m', live[j], a20) == ControlAt(m, live[j], a20)
      ensures after[j] == JftAt(m', live[j], a20)
    {
      assert PairApart(m, a20, live[p], live[j], p == j);
      LinkOther(m, a20, live[p], live[j], jfn, b, p == j);
    }
    forall i, j | 0 <= i < |live| && 0 <= j < |live|
      ensures PairApart(m', a20, live[i], live[j], i == j)
    {
      assert PairApart(m, a20, live[i], live[j], i == j);
    }
  }

  lemma {:induction false} LinkRemove(m: Memory, a20: bool, live: seq<u16>, jfts: seq<seq<byte>>, p: nat)
    requires Linked(m, a20, live, jfts) && p < |live|
    ensures Linked(m, a20, Remove(live, p), Remove(jfts, p))
  {
    hide ControlAt, JftRange, ControlRange, JftAt, Within, Mapped;
    var live', jfts' := Remove(live, p), Remove(jfts, p);
    forall i | 0 <= i < |live'|
      ensures Mapped(m, live'[i], a20) && jfts'[i] == JftAt(m, live'[i], a20)
    {
      var k := if i < p then i else i + 1;
      assert live'[i] == live[k] && jfts'[i] == jfts[k];
    }
    forall i, j | 0 <= i < |live'| && 0 <= j < |live'|
      ensures PairApart(m, a20, live'[i], live'[j], i == j)
    {
      var k, l := if i < p then i else i + 1, if j < p then j else j + 1;
      assert live'[i] == live[k] && live'[j] == live[l];
      assert PairApart(m, a20, live[k], live[l], k == l);
    }
  }

  lemma {:induction false} LinkAppend(m: Memory, a20: bool, live: seq<u16>, jfts: seq<seq<byte>>, psp: u16, jft: seq<byte>)
    requires Linked(m, a20, live, jfts) && Apart(m, a20, live + [psp]) && Mapped(m, psp, a20) && JftAt(m, psp, a20) == jft
    ensures Linked(m, a20, live + [psp], jfts + [jft])
  {
    hide Apart, JftAt, Mapped;
    var live' := live + [psp];
    assert forall i :: 0 <= i < |live| ==> live'[i] == live[i];
  }
}

/** Guest memory as it would look if a block of bytes kept in a private buffer
    had been written in place, and what in-place copying means. */
module PspWindow {
  import opened GuestMemory

  /** `m` is `m0` with the first `n` bytes of `staged` in the window. */
  ghost predicate Shows(m0: Memory, m: Memory, window: Addresses, n: nat, staged: seq<byte>) {
    && |m| == |m0| && n <= |window| == |staged| && Within(window, |m|)
    && (forall i :: 0 <= i < n ==> m[window[i]] == staged[i])
    && (forall a :: 0 <= a < |m| && a !in window[..n] ==> m[a] == m0[a])
  }

  /** The first place in the window with a given address, or its length. */
  function Alias(window: Addresses, at: nat): (i: nat)
    ensures i <= |window|
    ensures i < |window| ==> window[i] == at
    ensures i == |window| ==> at !in window
    decreases |window|
  {
    if window == [] then 0
    else if window[0] == at then 0
    else 1 + Alias(window[1..], at)
  }

  lemma {:induction false} AliasOnly(window: Addresses, i: nat)
    requires Injective(window) && i < |window|
    ensures Alias(window, window[i]) == i
  {
    var j := Alias(window, window[i]);
    assert window[i] in window;
  }

  /** Reading in place: the staged byte where the window was already written. */
  lemma {:induction false} ShowsRead(m0: Memory, m: Memory, window: Addresses, n: nat, staged: seq<byte>, at: nat)
    requires Shows(m0, m, window, n, staged) && Injective(window) && at < |m|
    ensures m[at] == var i := Alias(window, at); if i < n then staged[i] else m0[at]
  {
    var i := Alias(window, at);
    if i >= n {
      forall j | 0 <= j < n ensures window[j] != at {
        if window[j] == at { AliasOnly(window, j); }
      }
    }
  }

  /** Writing one more window byte in place and in the buffer. */
  lemma {:induction false} ShowsNext(m0: Memory, m: Memory, window: Addresses, n: nat, staged: seq<byte>, b: byte)
    requires Shows(m0, m, window, n, staged) && Injective(window) && n < |window|
    ensures window[n] < |m| && Shows(m0, m[window[n] := b], window, n + 1, staged[n := b])
  {
    var m' := m[window[n] := b];
    assert window[..n + 1] == window[..n] + [window[n]];
    forall i | 0 <= i < n + 1 ensures m'[window[i]] == staged[n := b][i] {
      if i < n { assert window[i] != window[n]; }
    }
  }

  /** The same for a word whose two bytes were read first. */
  lemma {:induction false} ShowsWord(m0: Memory, m: Memory, window: Addresses, n: nat, staged: seq<byte>, low: byte, high: byte)
    requires Shows(m0, m, window, n, staged) && Injective(window) && n + 1 < |window|
    ensures window[n] < |m| && window[n + 1] < |m|
    ensures Shows(m0, m[window[n] := low][window[n + 1] := high], window, n + 2, staged[n := low][n + 1 := high])
  {
    hide Injective;
    ShowsNext(m0, m, window, n, staged, low);
    ShowsNext(m0, m[window[n] := low], window, n + 1, staged[n := low], high);
  }

  /** Overwriting a window byte in place and in the buffer. */
  lemma {:induction false} ShowsPut(m0: Memory, m: Memory, window: Addresses, staged: seq<byte>, i: nat, b: byte)
    requires Shows(m0, m, window, |window|, staged) && Injective(window) && i < |window|
    ensures window[i] < |m| && Shows(m0, m[window[i] := b], window, |window|, staged[i := b])
  {
    var m' := m[window[i] := b];
    assert window[..|window|] == window;
    forall j | 0 <= j < |window| ensures m'[window[j]] == staged[i := b][j] {
      if j < i { assert window[j] != window[i]; }
      if i < j { assert window[i] != window[j]; }
    }
  }

  // ---------- in place ----------

  /** Copy `k` words forward: each word is read whole, then written. */
  function CopyWords(m: Memory, source: Addresses, window: Addresses, k: nat): (after: Memory)
    requires 2 * k <= |source| && 2 * k <= |window| && Within(source, |m|) && Within(window, |m|)
    ensures |after| == |m|
  {
    if k == 0 then m
    else var before := CopyWords(m, source, window, k - 1);
         var w := 2 * (k - 1);
         before[window[w] := before[source[w]]][window[w + 1] := before[source[w + 1]]]
  }

  /** Copy `k` bytes forward, one after the other. */
  function CopyBytes(m: Memory, source: Addresses, window: Addresses, at: nat, k: nat): (after: Memory)
    requires k <= |source| && at + k <= |window| && Within(source, |m|) && Within(window, |m|)
    ensures |after| == |m|
  {
    if k == 0 then m
    else var before := CopyBytes(m, source, window, at, k - 1);
         before[window[at + k - 1] := before[source[k - 1]]]
  }

  /** Write given bytes into the window, one after the other. */
  function PutBytes(m: Memory, window: Addresses, at: nat, bytes: seq<byte>): (after: Memory)
    requires at + |bytes| <= |window| && Within(window, |m|)
    ensures |after| == |m|
    decreases |bytes|
  {
    if bytes == [] then m
    else var before := PutBytes(m, window, at, bytes[..|bytes| - 1]);
         before[window[at + |bytes| - 1] := bytes[|bytes| - 1]]
  }

  /** The same on the buffer. */
  function Overwrite(staged: seq<byte>, at: nat, bytes: seq<byte>): (after: seq<byte>)
    requires at + |bytes| <= |staged|
    ensures |after| == |staged|
    ensures forall i :: 0 <= i < |staged| ==> after[i] == if at <= i < at + |bytes| then bytes[i - at] else staged[i]
  {
    staged[..at] + bytes + staged[at + |bytes|..]
  }

  lemma {:induction false} ShowsPutBytes(m0: Memory, m: Memory, window: Addresses, staged: seq<byte>, at: nat, bytes: seq<byte>)
    requires Shows(m0, m, window, |window|, staged) && Injective(window) && at + |bytes| <= |window|
    ensures Shows(m0, PutBytes(m, window, at, bytes), window, |window|, Overwrite(staged, at, bytes))
    decreases |bytes|
  {
    hide Shows;
    ShowsSizes(m0, m, window, staged);
    if bytes == [] {
      assert Overwrite(staged, at, bytes) == staged;
    } else {
      var n := |bytes| - 1;
      ShowsPutBytes(m0, m, window, staged, at, bytes[..n]);
      ShowsPut(m0, PutBytes(m, window, at, bytes[..n]), window, Overwrite(staged, at, bytes[..n]), at + n, bytes[n]);
      assert Overwrite(staged, at, bytes) == Overwrite(staged, at, bytes[..n])[at + n := bytes[n]];
    }
  }

  lemma {:induction false} ShowsSizes(m0: Memory, m: Memory, window: Addresses, staged: seq<byte>)
    requires Shows(m0, m, window, |window|, staged)
    ensures Within(window, |m|) && |m| == |m0| && |staged| == |window|
  {
  }

  /** The window of a finished copy is the buffer. */
  lemma {:induction false} ShowsAll(m0: Memory, m: Memory, window: Addresses, staged: seq<byte>)
    requires Shows(m0, m, window, |window|, staged)
    ensures Load(m, window) == staged
  {
  }

  /** A window stored at once shows all of its bytes. */
  lemma {:induction false} ShowsStored(m: Memory, window: Addresses, staged: seq<byte>)
    requires |window| == |staged| && Within(window, |m|) && Injective(window)
    ensures Shows(m, Store(m, window, staged), window, |window|, staged)
  {
    hide Store;
    LoadAfterStore(m, window, staged);
    StoreFrame(m, window, staged);
    assert window[..|window|] == window;
    forall i | 0 <= i < |window| ensures Store(m, window, staged)[window[i]] == staged[i] {
      assert Load(Store(m, window, staged), window)[i] == staged[i];
    }
  }

  /** Memory and buffer determine what is shown. */
  lemma {:induction false} ShowsUnique(m0: Memory, m: Memory, m': Memory, window: Addresses, staged: seq<byte>)
    requires Shows(m0, m, window, |window|, staged) && Shows(m0, m', window, |window|, staged)
    ensures m == m'
  {
    assert window[..|window|] == window;
    forall a | 0 <= a < |m| ensures m[a] == m'[a] {
      if a in window {
        var i :| 0 <= i < |window| && window[i] == a;
        assert m[window[i]] == staged[i] == m'[window[i]];
      }
    }
  }

  /** A forward copy whose source stays clear of the window is a block copy. */
  lemma {:induction false} ShowsCopyApart(m0: Memory, m: Memory, source: Addresses, window: Addresses, staged: seq<byte>,
                                          at: nat, k: nat)
    requires Shows(m0, m, window, |window|, staged) && Injective(window) && k <= |source| && at + k <= |window|
    requires Within(source, |m0|) && forall i :: 0 <= i < k ==> source[i] !in window
    ensures |m| == |m0| && |staged| == |window|
    ensures Shows(m0, CopyBytes(m, source, window, at, k), window, |window|, Overwrite(staged, at, Load(m0, source)[..k]))
    decreases k
  {
    hide Shows, Alias;
    ShowsSizes(m0, m, window, staged);
    var bytes := Load(m0, source);
    if k == 0 {
      assert Overwrite(staged, at, bytes[..0]) == staged;
    } else {
      ShowsCopyApart(m0, m, source, window, staged, at, k - 1);
      var m1, s1 := CopyBytes(m, source, window, at, k - 1), Overwrite(staged, at, bytes[..k - 1]);
      assert source[k - 1] !in window;
      AliasNone(window, source[k - 1]);
      ShowsRead(m0, m1, window, |window|, s1, source[k - 1]);
      ShowsPut(m0, m1, window, s1, at + k - 1, bytes[k - 1]);
      assert Overwrite(staged, at, bytes[..k]) == s1[at + k - 1 := bytes[k - 1]];
    }
  }

  lemma {:induction false} AliasNone(window: Addresses, at: nat)
    requires at !in window
    ensures Alias(window, at) == |window|
  {
  }
}

/** Canonicalisation as it runs: a character buffer and its length, changed in
    place by a loop over the input's components. */
module PathCanonicalize {
  import opened GuestMemory
  import opened DosPath

  // ---------- the component loop and the fields of a text ----------

  /** The loop's view of a text: a first run without separators, then separators. */
  lemma {:induction false} FieldsOfRun(text: Text, n: nat)
    requires n <= |text| && NoSeparator(text[..n])
    requires n == |text| || IsSeparator(text[n])
    ensures Fields(text) == [text[..n]] + (if n == |text| then [] else Fields(text[n + 1..]))
    decreases n
  {
    if n > 0 {
      var rest := text[1..];
      assert rest[..n - 1] == text[..n][1..];
      assert n < |text| ==> rest[n - 1] == text[n] && rest[n..] == text[n + 1..];
      FieldsOfRun(rest, n - 1);
      assert !IsSeparator(text[..n][0]);
      assert [text[0]] + rest[..n - 1] == text[..n];
    } else {
      assert text[..0] == [];
    }
  }

  lemma {:induction false} SkipSeparator(at: Text, text: Text)
    requires text != [] && IsSeparator(text[0])
    ensures WalkText(at, Fields(text)) == WalkText(at, Fields(text[1..]))
  {
    var fields := Fields(text);
    assert fields[0] == [] && fields[1..] == Fields(text[1..]);
  }

  /** One turn of the loop. */
  lemma {:induction false} WalkRun(at: Text, text: Text, n: nat)
    requires n <= |text| && NoSeparator(text[..n])
    requires n == |text| || IsSeparator(text[n])
    ensures var step := StepText(at, text[..n]);
      WalkText(at, Fields(text))
      == if step.Rejected? then step else WalkText(step.value, Fields(text[n..]))
  {
    hide StepText, IsSeparator, NoSeparator;
    FieldsOfRun(text, n);
    var step := StepText(at, text[..n]);
    if n == |text| {
      assert text[n..] == [];
      assert Fields(text)[1..] == [];
      if step.Resolved? { WalkNothing(step.value); }
    } else {
      assert Fields(text)[1..] == Fields(text[n + 1..]);
      assert text[n..][1..] == text[n + 1..];
      if step.Resolved? { SkipSeparator(step.value, text[n..]); }
    }
  }

  lemma {:induction false} WalkNothing(at: Text)
    ensures WalkText(at, Fields([])) == Resolved(at)
  {
    assert Fields([])[1..] == [];
  }

  // ---------- the current path ----------

  /** The length of a text in a buffer, bounded by `limit`. */
  function Strnlen(buffer: seq<byte>, limit: nat): (length: nat)
    requires limit <= |buffer|
    ensures length <= limit && 0 !in buffer[..length]
    ensures length < limit ==> buffer[length] == 0
  {
    if limit == 0 || buffer[0] == 0 then 0
    else
      var length := 1 + Strnlen(buffer[1..], limit - 1);
      assert buffer[..length] == [buffer[0]] + buffer[1..][..length - 1];
      length
  }

  lemma {:induction false} StrnlenOfText(text: Text, buffer: seq<byte>, limit: nat)
    requires 0 !in text && |text| < limit <= |buffer| && text + [0] <= buffer
    ensures Strnlen(buffer, limit) == |text|
  {
    var length := Strnlen(buffer, limit);
    assert forall i :: 0 <= i < length ==> buffer[..length][i] == buffer[i];
    assert forall i :: 0 <= i < |text| ==> (text + [0])[i] == text[i] && buffer[i] == text[i];
    assert buffer[|text|] == (text + [0])[|text|];
  }

  /** The current directory held in a buffer, if it is drive-rooted. */
  function CurrentText(buffer: seq<byte>): (r: Outcome<Text>)
    ensures if r.Resolved? then 3 <= |r.value| < PATH_CAPACITY else r.status == BadArgument
  {
    var length := Strnlen(buffer, if |buffer| < PATH_CAPACITY then |buffer| else PATH_CAPACITY);
    if length < 3 || length >= |buffer| || length >= PATH_CAPACITY
      || UpperByte(buffer[0]) != DRIVE || buffer[1] != COLON || buffer[2] != BACKSLASH
    then Rejected(BadArgument)
    else Resolved(buffer[..length])
  }

  /** A buffer holding a canonical path is accepted as current directory. */
  lemma {:induction false} CurrentOfCanonical(stack: Stack, buffer: seq<byte>)
    requires Canonical(stack) && Print(stack) + [0] <= buffer
    ensures CurrentText(buffer) == Resolved(Print(stack))
  {
    var text := Print(stack);
    PrintShape(stack);
    StrnlenOfText(text, buffer, if |buffer| < PATH_CAPACITY then |buffer| else PATH_CAPACITY);
    assert buffer[..|text|] == text;
    assert text[0] == text[..3][0] && text[1] == text[..3][1] && text[2] == text[..3][2];
  }

  function Canonicalized(current: seq<byte>, input: Text): (r: Outcome<Text>) {
    var text := CurrentText(current);
    if text.Rejected? then text else Resolve(text.value, input)
  }

  // ---------- the buffer operations ----------

  predicate Holds(path: array<byte>, length: nat)
    reads path
  {
    path.Length == PATH_CAPACITY && 3 <= length < PATH_CAPACITY && path[length] == 0
  }

  method ResetToRoot(path: array<byte>) returns (length: nat)
    requires path.Length == PATH_CAPACITY
    modifies path
    ensures Holds(path, length) && path[..length] == ROOT
  {
    path[0], path[1], path[2], path[3] := DRIVE, COLON, BACKSLASH, 0;
    length := 3;
  }

  method RemoveLast(path: array<byte>, before: nat) returns (length: nat)
    requires Holds(path, before)
    modifies path
    ensures Holds(path, length) && path[..length] == Chop(old(path[..before]))
  {
    ghost var text := path[..before];
    var cursor := before;
    if cursor <= 3 { length := ResetToRoot(path); return; }
    while cursor > 3 && path[cursor - 1] != BACKSLASH
      invariant 3 <= cursor <= before && path[..before] == text
      invariant LastStart(text, cursor) == LastStart(text, before)
    {
      assert text[cursor - 1] == path[cursor - 1];
      cursor := cursor - 1;
    }
    assert cursor > 3 ==> text[cursor - 1] == path[cursor - 1];
    length := if cursor > 3 then cursor - 1 else 3;
    path[length] := 0;
    assert path[..length] == text[..length];
  }

  method AppendComponent(path: array<byte>, before: nat, component: Text) returns (status: PathStatus, length: nat)
    requires Holds(path, before)
    modifies path
    ensures status == PathOk ==> Holds(path, length)
    ensures var r := Extend(old(path[..before]), component);
      if status == PathOk then r == Resolved(path[..length]) else r == Rejected(status)
  {
    ghost var text := path[..before];
    length := before;
    var separate := before > 3;
    var needed := |component| + if separate then 1 else 0;
    if needed >= PATH_CAPACITY - length { return TooLong, length; }
    if separate {
      path[length] := BACKSLASH;
      length := length + 1;
    }
    ghost var start := path[..length];
    assert start == text + if |text| > 3 then [BACKSLASH] else [];
    var index := 0;
    while index < |component|
      invariant 0 <= index <= |component| && length == |start| + index
      invariant AllPlain(component[..index])
      invariant path[..length] == start + Upper(component[..index])
    {
      if component[index] == 0 || component[index] == COLON || component[index] < 0x20 {
        assert !Plain(component[index]);
        return InvalidCharacter, length;
      }
      path[length] := UpperByte(component[index]);
      UpperSnoc(component, index);
      assert path[..length + 1] == path[..length] + [path[length]];
      length, index := length + 1, index + 1;
    }
    assert component[..index] == component;
    path[length] := 0;
    assert path[..length] == start + Upper(component);
    status := PathOk;
  }

  lemma {:induction false} UpperSnoc(text: Text, i: nat)
    requires i < |text|
    ensures Upper(text[..i + 1]) == Upper(text[..i]) + [UpperByte(text[i])]
  {
  }

  /** The length of the run at `from` whose bytes all are, or all are not,
      separators. */
  method ScanRun(text: Text, from: nat, separators: bool) returns (to: nat)
    requires from <= |text|
    ensures from <= to <= |text|
    ensures forall i :: from <= i < to ==> IsSeparator(text[i]) == separators
    ensures to < |text| ==> IsSeparator(text[to]) != separators
  {
    to := from;
    while to < |text| && IsSeparator(text[to]) == separators
      invariant from <= to <= |text|
      invariant forall i :: from <= i < to ==> IsSeparator(text[i]) == separators
    {
      to := to + 1;
    }
  }

  lemma {:induction false} SkipSeparators(at: Text, text: Text, from: nat, to: nat)
    requires from <= to <= |text| && forall i :: from <= i < to ==> IsSeparator(text[i])
    ensures WalkText(at, Fields(text[from..])) == WalkText(at, Fields(text[to..]))
    decreases |text| - from
  {
    if from < to {
      SkipSeparator(at, text[from..]);
      assert text[from..][1..] == text[from + 1..];
      SkipSeparators(at, text, from + 1, to);
    }
  }

  method TakeComponent(path: array<byte>, before: nat, component: Text) returns (status: PathStatus, length: nat)
    requires Holds(path, before)
    modifies path
    ensures status == PathOk ==> Holds(path, length)
    ensures var r := StepText(old(path[..before]), component);
      if status == PathOk then r == Resolved(path[..length]) else r == Rejected(status)
  {
    if |component| == 0 || (|component| == 1 && component[0] == DOT) {
      assert component == [] || component == [DOT];
      return PathOk, before;
    }
    if |component| == 2 && component[0] == DOT && component[1] == DOT {
      assert component == [DOT, DOT];
      length := RemoveLast(path, before);
      return PathOk, length;
    }
    status, length := AppendComponent(path, before, component);
  }

  /** The component loop. */
  method TakeComponents(path: array<byte>, before: nat, input: Text, from: nat) returns (status: PathStatus, length: nat)
    requires Holds(path, before) && from <= |input|
    modifies path
    ensures status == PathOk ==> Holds(path, length)
    ensures var r := WalkText(old(path[..before]), Fields(input[from..]));
      if status == PathOk then r == Resolved(path[..length]) else r == Rejected(status)
  {
    hide StepText, Fields, WalkText, IsSeparator;
    ghost var goal := WalkText(path[..before], Fields(input[from..]));
    var cursor := from;
    status, length := PathOk, before;
    while cursor < |input|
      invariant cursor <= |input| && status == PathOk && Holds(path, length)
      invariant WalkText(path[..length], Fields(input[cursor..])) == goal
    {
      var end := ScanRun(input, cursor, false);
      ghost var rest, text := input[cursor..], path[..length];
      assert rest[..end - cursor] == input[cursor..end] && rest[end - cursor..] == input[end..];
      WalkRun(text, rest, end - cursor);
      var next := ScanRun(input, end, true);
      status, length := TakeComponent(path, length, input[cursor..end]);
      if status != PathOk { return; }
      SkipSeparators(path[..length], input, end, next);
      if end == cursor && next == cursor { assert false; }
      cursor := next;
    }
    assert input[cursor..] == [];
    WalkNothing(path[..length]);
  }

  /** The buffer a path starts from: the root, or a copy of the current path. */
  method StartFrom(path: array<byte>, text: Text, input: Text, from: nat) returns (length: nat, cursor: nat)
    requires path.Length == PATH_CAPACITY && 3 <= |text| < PATH_CAPACITY && from <= |input|
    modifies path
    ensures Holds(path, length) && cursor <= |input|
    ensures WalkText(path[..length], Fields(input[cursor..])) == Relative(text, input[from..])
  {
    cursor := from;
    if cursor < |input| && IsSeparator(input[cursor]) {
      length := ResetToRoot(path);
      cursor := ScanRun(input, cursor, true);
      SkipSeparators(ROOT, input, from, cursor);
    } else {
      length := 0;
      while length < |text|
        invariant 0 <= length <= |text| && path[..length] == text[..length]
      {
        path[length] := text[length];
        length := length + 1;
      }
      path[length] := 0;
      assert path[..length] == text;
    }
  }

  method HasNul(input: Text) returns (found: bool)
    ensures found <==> 0 in input
  {
    var length := 0;
    while length < |input|
      invariant 0 <= length <= |input| && 0 !in input[..length]
    {
      if input[length] == 0 { return true; }
      length := length + 1;
    }
    found := false;
  }

  /** The whole canonicalisation: the output is written only on success, and
      then holds the text `Canonicalized` gives, with its terminator. */
  method Canonicalize(current: seq<byte>, input: Text, output: array<byte>) returns (status: PathStatus)
    requires output.Length == PATH_CAPACITY
    modifies output
    ensures var r := Canonicalized(current, input);
      if status == PathOk
      then r.Resolved? && |r.value| < PATH_CAPACITY && output[..] == r.value + [0] + old(output[..])[|r.value| + 1..]
      else r == Rejected(status) && output[..] == old(output[..])
  {
    hide WalkText, Fields, CurrentText, Relative;
    var text := CurrentText(current);
    if text.Rejected? { return text.status; }
    if |input| >= PATH_CAPACITY { return TooLong; }
    var nul := HasNul(input);
    if nul { return InvalidCharacter; }
    var from := 0;
    if |input| >= 2 && input[1] == COLON {
      if UpperByte(input[0]) != DRIVE { return InvalidDrive; }
      from := 2;
    }
    assert input[0..] == input;
    var prepared := new byte[PATH_CAPACITY];
    var length, cursor := StartFrom(prepared, text.value, input, from);
    status, length := TakeComponents(prepared, length, input, cursor);
    if status != PathOk { return; }
    CopyOut(prepared, length, output);
  }

  method CopyOut(prepared: array<byte>, length: nat, output: array<byte>)
    requires Holds(prepared, length) && output.Length == PATH_CAPACITY && prepared != output
    modifies output
    ensures output[..] == prepared[..length] + [0] + old(output[..])[length + 1..]
  {
    forall i | 0 <= i <= length { output[i] := prepared[i]; }
  }

  /** What the kernel's callers rely on: with a canonical current path, the
      result is the printed stack, canonical again and unchanged by another pass. */
  lemma {:induction false} CanonicalPaths(stack: Stack, current: seq<byte>, input: Text)
    requires Canonical(stack) && Print(stack) + [0] <= current
    ensures Canonicalized(current, input) == Printed(ResolveStack(stack, input))
    ensures ResolveStack(stack, input).Resolved? ==>
      var after := ResolveStack(stack, input).value;
      && Canonical(after)
      && Canonicalized(current, Print(after)) == Resolved(Print(after))
      && CurrentText(Print(after) + [0]) == Resolved(Print(after))
  {
    hide Canonical, Print, Resolve, ResolveStack, CurrentText, Printed;
    CurrentOfCanonical(stack, current);
    ResolveAgrees(stack, input);
    if ResolveStack(stack, input).Resolved? {
      var after := ResolveStack(stack, input).value;
      CanonicalIsFixed(after, Print(stack));
      CurrentOfCanonical(after, Print(after) + [0]);
    }
  }
}

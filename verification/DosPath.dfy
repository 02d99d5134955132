/** DOS paths: what canonicalisation computes, on text and on a stack of
    components. */
module DosPath {
  import opened GuestMemory

  type Text = seq<byte>

  const PATH_CAPACITY := 68
  const BACKSLASH: byte := 0x5c
  const SLASH: byte := 0x2f
  const DOT: byte := 0x2e
  const COLON: byte := 0x3a
  const DRIVE: byte := 0x43
  const ROOT: Text := [DRIVE, COLON, BACKSLASH]

  datatype PathStatus = PathOk | BadArgument | InvalidDrive | TooLong | InvalidCharacter

  datatype Outcome<T> = Resolved(value: T) | Rejected(status: PathStatus)

  predicate IsSeparator(b: byte) { b == BACKSLASH || b == SLASH }

  function UpperByte(b: byte): (u: byte) { if 0x61 <= b <= 0x7a then b - 0x20 else b }

  function Upper(text: Text): (u: Text)
    ensures |u| == |text|
  {
    seq(|text|, i requires 0 <= i < |text| => UpperByte(text[i]))
  }

  predicate Plain(b: byte) { b >= 0x20 && b != COLON }

  predicate AllPlain(text: Text) { forall i :: 0 <= i < |text| ==> Plain(text[i]) }

  predicate NoSeparator(text: Text) { forall i :: 0 <= i < |text| ==> !IsSeparator(text[i]) }

  /** The fields of a text: every separator ends one, so fields may be empty. */
  function Fields(text: Text): (fields: seq<Text>)
    ensures |fields| > 0
    ensures forall i :: 0 <= i < |fields| ==> NoSeparator(fields[i])
  {
    if text == [] then [[]]
    else if IsSeparator(text[0]) then [[]] + Fields(text[1..])
    else var fields := Fields(text[1..]); [[text[0]] + fields[0]] + fields[1..]
  }

  // ---------- canonicalisation on text ----------

  /** Where the last component of the first `cursor` bytes starts. */
  function LastStart(text: Text, cursor: nat): (start: nat)
    requires cursor <= |text|
    ensures start <= cursor
  {
    if cursor <= 3 || text[cursor - 1] == BACKSLASH then cursor else LastStart(text, cursor - 1)
  }

  function Chop(text: Text): (shorter: Text)
    ensures |text| >= 3 ==> |shorter| >= 3
    ensures |shorter| <= |text| || shorter == ROOT
  {
    if |text| <= 3 then ROOT
    else var start := LastStart(text, |text|); if start > 3 then text[..start - 1] else text[..3]
  }

  function Extend(text: Text, field: Text): (r: Outcome<Text>) {
    var separator := if |text| > 3 then [BACKSLASH] else [];
    if |text| + |separator| + |field| >= PATH_CAPACITY then Rejected(TooLong)
    else if !AllPlain(field) then Rejected(InvalidCharacter)
    else Resolved(text + separator + Upper(field))
  }

  function StepText(text: Text, field: Text): (r: Outcome<Text>) {
    if field == [] || field == [DOT] then Resolved(text)
    else if field == [DOT, DOT] then Resolved(Chop(text))
    else Extend(text, field)
  }

  /** One component, spelled out: nothing and `.` stay, `..` chops, and anything
      else is appended in capitals behind a backslash, unless that makes 68 bytes
      or it holds a control character or a colon. */
  lemma {:induction false} StepMeaning(text: Text, field: Text)
    ensures field == [] || field == [0x2e] ==> StepText(text, field) == Resolved(text)
    ensures field == [0x2e, 0x2e] ==> StepText(text, field) == Resolved(Chop(text))
    ensures field != [] && field != [0x2e] && field != [0x2e, 0x2e] ==>
      var separator := if |text| > 3 then [0x5c] else [];
      var bad := exists i :: 0 <= i < |field| && (field[i] < 0x20 || field[i] == 0x3a);
      var capitals := seq(|field|, i requires 0 <= i < |field| =>
                            if 0x61 <= field[i] <= 0x7a then field[i] - 32 else field[i]);
      StepText(text, field) ==
        if |text| + |separator| + |field| >= 68 then Rejected(TooLong)
        else if bad then Rejected(InvalidCharacter)
        else Resolved(text + separator + capitals)
  {
    if field != [] && field != [0x2e] && field != [0x2e, 0x2e] {
      assert AllPlain(field) <==> !exists i :: 0 <= i < |field| && (field[i] < 0x20 || field[i] == 0x3a);
      assert Upper(field) == seq(|field|, i requires 0 <= i < |field| =>
                                   if 0x61 <= field[i] <= 0x7a then field[i] - 32 else field[i]);
    }
  }

  /** Components end at each backslash and each slash, and nowhere else. */
  lemma {:induction false} FieldsMeaning(text: Text)
    ensures |Fields(text)| == 1 + Separators(text)
    ensures (forall i :: 0 <= i < |text| ==> text[i] != 0x5c && text[i] != 0x2f) ==> Fields(text) == [text]
    ensures forall i :: 0 <= i < |text| && (text[i] == 0x5c || text[i] == 0x2f) ==>
      Fields(text) == Fields(text[..i]) + Fields(text[i + 1..])
    decreases |text|
  {
    if text != [] {
      FieldsMeaning(text[1..]);
      forall i | 0 <= i < |text| && (text[i] == 0x5c || text[i] == 0x2f)
        ensures Fields(text) == Fields(text[..i]) + Fields(text[i + 1..])
      {
        if i == 0 {
          assert text[..0] == [];
        } else {
          FieldsSplit(text, i);
        }
      }
      if forall i :: 0 <= i < |text| ==> text[i] != 0x5c && text[i] != 0x2f {
        assert [text[0]] + text[1..] == text;
      }
    }
  }

  function Separators(text: Text): (n: nat) {
    if text == [] then 0 else (if text[0] == 0x5c || text[0] == 0x2f then 1 else 0) + Separators(text[1..])
  }

  lemma {:induction false} FieldsSplit(text: Text, i: nat)
    requires 0 < i < |text| && IsSeparator(text[i])
    ensures Fields(text) == Fields(text[..i]) + Fields(text[i + 1..])
    decreases i
  {
    hide Fields;
    var rest := text[1..];
    assert rest[..i - 1] == text[..i][1..] && rest[i..] == text[i + 1..] && rest[i - 1] == text[i];
    FieldsUnfold(text);
    FieldsUnfold(text[..i]);
    if i == 1 {
      FieldsUnfold(rest);
      FieldsUnfold(rest[..0]);
      assert rest[..0] == [];
    } else {
      FieldsSplit(rest, i - 1);
    }
  }

  lemma {:induction false} FieldsUnfold(text: Text)
    ensures text == [] ==> Fields(text) == [[]]
    ensures text != [] ==> var fields := Fields(text[1..]);
      Fields(text) == if IsSeparator(text[0]) then [[]] + fields else [[text[0]] + fields[0]] + fields[1..]
  {
  }

  function WalkText(text: Text, fields: seq<Text>): (r: Outcome<Text>)
    decreases |fields|
  {
    if fields == [] then Resolved(text)
    else
      var step := StepText(text, fields[0]);
      if step.Rejected? then step else WalkText(step.value, fields[1..])
  }

  /** Past the drive, if any: an absolute path starts over at the root. */
  function Relative(text: Text, rest: Text): (r: Outcome<Text>) {
    WalkText(if rest != [] && IsSeparator(rest[0]) then ROOT else text, Fields(rest))
  }

  /** What a given input rules out before any component is looked at. */
  function Admitted(input: Text): (r: Outcome<Text>) {
    if |input| >= PATH_CAPACITY then Rejected(TooLong)
    else if 0 in input then Rejected(InvalidCharacter)
    else if |input| >= 2 && input[1] == COLON then
      if UpperByte(input[0]) != DRIVE then Rejected(InvalidDrive) else Resolved(input[2..])
    else Resolved(input)
  }

  function Resolve(text: Text, input: Text): (r: Outcome<Text>) {
    var rest := Admitted(input);
    if rest.Rejected? then rest else Relative(text, rest.value)
  }

  // ---------- canonicalisation on a stack of components ----------

  type Stack = seq<Text>

  function Print(stack: Stack): (text: Text)
    ensures |text| >= 3
    ensures stack != [] && stack[0] != [] ==> |text| > 3
  {
    if |stack| == 0 then ROOT
    else if |stack| == 1 then ROOT + stack[0]
    else Print(stack[..|stack| - 1]) + [BACKSLASH] + stack[|stack| - 1]
  }

  predicate Component(text: Text) {
    && text != [] && text != [DOT] && text != [DOT, DOT]
    && NoSeparator(text) && AllPlain(text) && Upper(text) == text
  }

  /** A stack that prints a canonical path. */
  predicate Canonical(stack: Stack) {
    && (forall i :: 0 <= i < |stack| ==> Component(stack[i]))
    && |Print(stack)| < PATH_CAPACITY
  }

  function Push(stack: Stack, field: Text): (r: Outcome<Stack>) {
    if |Print(stack + [field])| >= PATH_CAPACITY then Rejected(TooLong)
    else if !AllPlain(field) then Rejected(InvalidCharacter)
    else Resolved(stack + [Upper(field)])
  }

  function Pop(stack: Stack): (below: Stack) { if stack == [] then [] else stack[..|stack| - 1] }

  function StepStack(stack: Stack, field: Text): (r: Outcome<Stack>) {
    if field == [] || field == [DOT] then Resolved(stack)
    else if field == [DOT, DOT] then Resolved(Pop(stack))
    else Push(stack, field)
  }

  function WalkStack(stack: Stack, fields: seq<Text>): (r: Outcome<Stack>)
    decreases |fields|
  {
    if fields == [] then Resolved(stack)
    else
      var step := StepStack(stack, fields[0]);
      if step.Rejected? then step else WalkStack(step.value, fields[1..])
  }

  function ResolveStack(stack: Stack, input: Text): (r: Outcome<Stack>) {
    var rest := Admitted(input);
    if rest.Rejected? then Rejected(rest.status)
    else WalkStack(if rest.value != [] && IsSeparator(rest.value[0]) then [] else stack, Fields(rest.value))
  }

  function Printed(r: Outcome<Stack>): (p: Outcome<Text>) {
    if r.Rejected? then Rejected(r.status) else Resolved(Print(r.value))
  }

  // ---------- the two agree ----------

  lemma {:induction false} PrintPush(stack: Stack, field: Text)
    requires forall i :: 0 <= i < |stack| ==> stack[i] != []
    ensures Print(stack + [field]) == Print(stack) + (if |Print(stack)| > 3 then [BACKSLASH] else []) + field
  {
    assert (stack + [field])[..|stack|] == stack;
    if stack == [] {
      assert [] + [field] == [field];
      assert ROOT + [] == ROOT;
    } else if |stack| > 1 {
      PrintLonger(stack);
    }
  }

  lemma {:induction false} PrintLonger(stack: Stack)
    requires |stack| > 1
    ensures |Print(stack)| > 3
  {
  }

  lemma {:induction false} LastStartFound(text: Text, start: nat, cursor: nat)
    requires 3 <= start <= cursor <= |text|
    requires start == 3 || text[start - 1] == BACKSLASH
    requires forall i :: start <= i < cursor ==> text[i] != BACKSLASH
    ensures LastStart(text, cursor) == start
  {
    if cursor > start { LastStartFound(text, start, cursor - 1); }
  }

  /** Dropping the last component of the text pops the stack. */
  lemma {:induction false} ChopPops(stack: Stack)
    requires Canonical(stack)
    ensures Chop(Print(stack)) == Print(Pop(stack))
  {
    if stack != [] {
      var below, top := stack[..|stack| - 1], stack[|stack| - 1];
      assert stack == below + [top];
      hide Print, Chop;
      PrintPush(below, top);
      if |Print(below)| <= 3 { OnlyRoot(below); }
      ChopBehind(Print(below), top);
    }
  }

  /** Chopping takes off one component and its separator. */
  lemma {:induction false} ChopBehind(text: Text, top: Text)
    requires |text| >= 3 && top != [] && NoSeparator(top)
    ensures Chop(text + (if |text| > 3 then [BACKSLASH] else []) + top) == text
  {
    var whole := text + (if |text| > 3 then [BACKSLASH] else []) + top;
    var start := |whole| - |top|;
    assert forall i :: start <= i < |whole| ==> whole[i] == top[i - start] && !IsSeparator(top[i - start]);
    LastStartFound(whole, start, |whole|);
  }

  lemma {:induction false} OnlyRoot(stack: Stack)
    requires |Print(stack)| <= 3 && forall i :: 0 <= i < |stack| ==> stack[i] != []
    ensures stack == [] && Print(stack) == ROOT
  {
  }

  lemma {:induction false} UpperTwice(text: Text)
    ensures Upper(Upper(text)) == Upper(text)
  {
  }

  /** Raising case neither makes nor unmakes a component. */
  lemma {:induction false} UpperComponent(field: Text)
    requires NoSeparator(field) && AllPlain(field) && field != [] && field != [DOT] && field != [DOT, DOT]
    ensures Component(Upper(field))
  {
    UpperTwice(field);
    var upper := Upper(field);
    assert forall i :: 0 <= i < |upper| ==> upper[i] == UpperByte(field[i]);
  }

  lemma {:induction false} StepAgrees(stack: Stack, field: Text)
    requires Canonical(stack) && NoSeparator(field)
    ensures StepText(Print(stack), field) == Printed(StepStack(stack, field))
    ensures StepStack(stack, field).Resolved? ==> Canonical(StepStack(stack, field).value)
  {
    hide Print, Chop;
    if field == [] || field == [DOT] {
    } else if field == [DOT, DOT] {
      ChopPops(stack);
      PopCanonical(stack);
    } else {
      PrintPush(stack, field);
      PrintPush(stack, Upper(field));
      if AllPlain(field) { UpperComponent(field); }
    }
  }

  lemma {:induction false} PopCanonical(stack: Stack)
    requires Canonical(stack)
    ensures Canonical(Pop(stack))
  {
    if stack != [] {
      assert stack == Pop(stack) + [stack[|stack| - 1]];
      PrintPush(Pop(stack), stack[|stack| - 1]);
    }
  }

  lemma {:induction false} WalkAgrees(stack: Stack, fields: seq<Text>)
    requires Canonical(stack) && forall i :: 0 <= i < |fields| ==> NoSeparator(fields[i])
    ensures WalkText(Print(stack), fields) == Printed(WalkStack(stack, fields))
    ensures WalkStack(stack, fields).Resolved? ==> Canonical(WalkStack(stack, fields).value)
    decreases |fields|
  {
    hide StepText, StepStack, Canonical, Print;
    if fields != [] {
      StepAgrees(stack, fields[0]);
      var step := StepStack(stack, fields[0]);
      if step.Resolved? { WalkAgrees(step.value, fields[1..]); }
    }
  }

  /** From a canonical current path, canonicalising text is printing the stack
      its components are pushed on and popped from, and the result is canonical. */
  lemma {:induction false} ResolveAgrees(stack: Stack, input: Text)
    requires Canonical(stack)
    ensures Resolve(Print(stack), input) == Printed(ResolveStack(stack, input))
    ensures ResolveStack(stack, input).Resolved? ==> Canonical(ResolveStack(stack, input).value)
  {
    hide Fields, Canonical, Print, WalkText, WalkStack, Admitted;
    var rest := Admitted(input);
    if rest.Resolved? {
      EmptyCanonical();
      WalkAgrees(if rest.value != [] && IsSeparator(rest.value[0]) then [] else stack, Fields(rest.value));
    }
  }

  lemma {:induction false} EmptyCanonical()
    ensures Canonical([]) && Print([]) == ROOT
  {
  }

  // ---------- canonical paths are fixed points ----------

  lemma {:induction false} FieldsOfOne(text: Text)
    requires NoSeparator(text)
    ensures Fields(text) == [text]
  {
    if text != [] {
      FieldsOfOne(text[1..]);
      assert [text[0]] + text[1..] == text;
    }
  }

  lemma {:induction false} FieldsAppend(text: Text, field: Text)
    requires NoSeparator(field)
    ensures Fields(text + [BACKSLASH] + field) == Fields(text) + [field]
  {
    var whole := text + [BACKSLASH] + field;
    if text == [] {
      assert whole[1..] == field;
      FieldsOfOne(field);
    } else {
      assert whole[1..] == text[1..] + [BACKSLASH] + field;
      FieldsAppend(text[1..], field);
    }
  }

  /** Splitting undoes printing: a canonical path has no empty, dot or dot-dot
      field after its root, so no doubled or trailing separator either. */
  lemma {:induction false} FieldsOfPrint(stack: Stack)
    requires stack != [] && forall i :: 0 <= i < |stack| ==> Component(stack[i])
    ensures Fields(Print(stack)[3..]) == stack
    decreases |stack|
  {
    var below, top := stack[..|stack| - 1], stack[|stack| - 1];
    assert stack == below + [top];
    if below == [] {
      assert Print(stack)[3..] == top;
      FieldsOfOne(top);
    } else {
      FieldsOfPrint(below);
      assert Print(stack)[3..] == Print(below)[3..] + [BACKSLASH] + top;
      FieldsAppend(Print(below)[3..], top);
    }
  }

  /** A canonical path starts at the drive's root and is upper case throughout. */
  lemma {:induction false} PrintShape(stack: Stack)
    requires forall i :: 0 <= i < |stack| ==> Component(stack[i])
    ensures Print(stack)[..3] == [0x43, 0x3a, 0x5c] && Upper(Print(stack)) == Print(stack)
    ensures forall i :: 0 <= i < |Print(stack)| ==>
      var b := Print(stack)[i]; b != 0 && b != 0x2f && !(0x61 <= b <= 0x7a)
    decreases |stack|
  {
    UpperHasNoSmall(Print(stack));
    if |stack| == 1 {
      PartShape(stack[0]);
    } else if |stack| > 1 {
      PrintShape(stack[..|stack| - 1]);
      PartShape(stack[|stack| - 1]);
      UpperAppend(Print(stack[..|stack| - 1]), [BACKSLASH] + stack[|stack| - 1]);
      assert Print(stack) == Print(stack[..|stack| - 1]) + ([BACKSLASH] + stack[|stack| - 1]);
    }
  }

  /** Capitals are what ASCII says they are. */
  lemma {:induction false} UpperHasNoSmall(text: Text)
    ensures forall i :: 0 <= i < |text| ==>
      Upper(text)[i] == (if 0x61 <= text[i] <= 0x7a then text[i] - 32 else text[i]) && !(0x61 <= Upper(text)[i] <= 0x7a)
  {
  }

  lemma {:induction false} PartShape(part: Text)
    requires Component(part)
    ensures 0 !in part && SLASH !in part
    ensures Upper([BACKSLASH] + part) == [BACKSLASH] + part && Upper(ROOT + part) == ROOT + part
  {
    UpperAppend([BACKSLASH], part);
    UpperAppend(ROOT, part);
  }

  lemma {:induction false} UpperAppend(left: Text, right: Text)
    ensures Upper(left + right) == Upper(left) + Upper(right)
  {
  }

  /** Walking a canonical stack's own components from below it rebuilds it. */
  lemma {:induction false} WalkRebuilds(stack: Stack, n: nat)
    requires Canonical(stack) && n <= |stack|
    ensures WalkStack(stack[..n], stack[n..]) == Resolved(stack)
    decreases |stack| - n
  {
    hide Print;
    if n == |stack| {
      assert stack[..n] == stack;
    } else {
      PrefixFits(stack, n + 1);
      assert stack[..n] + [stack[n]] == stack[..n + 1];
      assert Component(stack[n]);
      assert StepStack(stack[..n], stack[n..][0]) == Resolved(stack[..n + 1]);
      assert stack[n..][1..] == stack[n + 1..];
      WalkRebuilds(stack, n + 1);
    }
  }

  lemma {:induction false} PrefixFits(stack: Stack, n: nat)
    requires n <= |stack|
    ensures |Print(stack[..n])| <= |Print(stack)|
    decreases |stack|
  {
    if n < |stack| {
      PrefixFits(stack[..|stack| - 1], n);
      assert stack[..|stack| - 1][..n] == stack[..n];
    } else {
      assert stack[..n] == stack;
    }
  }

  /** Canonicalising a canonical path, whatever the current one, returns it. */
  lemma {:induction false} CanonicalIsFixed(stack: Stack, text: Text)
    requires Canonical(stack)
    ensures Resolve(text, Print(stack)) == Resolved(Print(stack))
  {
    hide Print, Printed, WalkText, WalkStack;
    var path := Print(stack);
    PrintShape(stack);
    var rest := path[2..];
    assert path[1] == path[..3][1] && path[0] == path[..3][0] && path[2] == path[..3][2];
    assert Admitted(path) == Resolved(rest);
    assert rest[0] == BACKSLASH;
    assert rest[1..] == path[3..];
    WalkFromRoot(stack);
    assert Fields(rest) == [[]] + Fields(path[3..]);
    EmptyCanonical();
  }

  lemma {:induction false} SkipEmpty(text: Text, fields: seq<Text>)
    ensures WalkText(text, [[]] + fields) == WalkText(text, fields)
  {
    assert ([[]] + fields)[1..] == fields;
  }

  lemma {:induction false} WalkFromRoot(stack: Stack)
    requires Canonical(stack)
    ensures WalkText(ROOT, [[]] + Fields(Print(stack)[3..])) == Resolved(Print(stack))
  {
    var fields := Fields(Print(stack)[3..]);
    EmptyCanonical();
    SkipEmpty(ROOT, fields);
    if stack == [] {
      assert fields == [[]] + [];
      SkipEmpty(ROOT, []);
    } else {
      FieldsOfPrint(stack);
      WalkRebuilds(stack, 0);
      assert stack[..0] == [] && stack[0..] == stack;
      WalkAgrees([], stack);
    }
  }
}

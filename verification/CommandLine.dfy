/** The command line handed to CreateProcessW, and the CommandLineToArgvW rules that read it back. */
module CommandLine {
  import opened Common

  const TAB: Unit := 0x09
  const NEW_LINE: Unit := 0x0a
  const VERTICAL_TAB: Unit := 0x0b
  const SPACE: Unit := 0x20
  const QUOTE: Unit := 0x22
  const BACKSLASH: Unit := 0x5c

  datatype CommandError = EmptyCommand | EmptyExecutable | EmbeddedNul(index: nat)

  /** What a command must satisfy before any process work starts. */
  predicate Launchable(command: seq<seq<Unit>>) {
    command != [] && command[0] != [] && forall i :: 0 <= i < |command| ==> 0 !in command[i]
  }

  /** Validates a command, naming the first argument that holds a NUL. */
  method WideCommand(command: seq<seq<Unit>>) returns (r: Result<seq<seq<Unit>>, CommandError>)
    ensures r.Ok? <==> Launchable(command)
    ensures r.Ok? ==> r.value == command
    ensures r.Err? && r.error.EmbeddedNul? ==>
              r.error.index < |command| && 0 in command[r.error.index] &&
              forall i :: 0 <= i < r.error.index ==> 0 !in command[i]
    ensures r == Err(EmptyCommand) <==> command == []
    ensures r == Err(EmptyExecutable) <==> command != [] && command[0] == []
  {
    if command == [] {
      return Err(EmptyCommand);
    }
    if command[0] == [] {
      return Err(EmptyExecutable);
    }
    for i := 0 to |command|
      invariant forall k :: 0 <= k < i ==> 0 !in command[k]
    {
      if 0 in command[i] {
        return Err(EmbeddedNul(i));
      }
    }
    return Ok(command);
  }

  function Repeated(unit: Unit, n: nat): (r: seq<Unit>)
    ensures |r| == n && forall i :: 0 <= i < n ==> r[i] == unit
  {
    seq(n, _ => unit)
  }

  predicate ForcesQuotes(unit: Unit) {
    unit == SPACE || unit == TAB || unit == NEW_LINE || unit == VERTICAL_TAB || unit == QUOTE
  }

  predicate NeedsQuotes(value: seq<Unit>) {
    value == [] || exists i :: 0 <= i < |value| && ForcesQuotes(value[i])
  }

  /** The text between the quotes, when `slashes` backslashes are pending in front of `value`. */
  function Escaped(value: seq<Unit>, slashes: nat): seq<Unit>
    decreases |value|
  {
    if value == [] then Repeated(BACKSLASH, 2 * slashes)
    else if value[0] == BACKSLASH then Escaped(value[1..], slashes + 1)
    else if value[0] == QUOTE then Repeated(BACKSLASH, 2 * slashes + 1) + [QUOTE] + Escaped(value[1..], 0)
    else Repeated(BACKSLASH, slashes) + [value[0]] + Escaped(value[1..], 0)
  }

  function Quoted(value: seq<Unit>): seq<Unit> {
    if NeedsQuotes(value) then [QUOTE] + Escaped(value, 0) + [QUOTE] else value
  }

  /** A value is quoted exactly if it is empty or holds a blank, a line break, a vertical tab or a quote. */
  lemma QuotedOnlyIfNeeded(value: seq<Unit>)
    ensures var r := Quoted(value);
            && (r == value <==> value != [] && forall u :: u in value ==> u !in {0x20, 0x09, 0x0a, 0x0b, 0x22})
            && (r != value ==> |r| >= 2 && r[0] == 0x22 && r[|r| - 1] == 0x22)
  {
    if NeedsQuotes(value) {
      EscapedIsLonger(value, 0);
      assert |Quoted(value)| > |value|;
      if value != [] {
        var i :| 0 <= i < |value| && ForcesQuotes(value[i]);
        assert value[i] in value;
      }
    } else {
      forall u | u in value
        ensures !ForcesQuotes(u)
      {
        var i :| 0 <= i < |value| && value[i] == u;
      }
    }
  }

  lemma {:induction false} EscapedIsLonger(value: seq<Unit>, slashes: nat)
    ensures |Escaped(value, slashes)| >= |value| + slashes
    decreases |value|
  {
    if value != [] {
      EscapedIsLonger(value[1..], if value[0] == BACKSLASH then slashes + 1 else 0);
    }
  }

  method QuoteArgument(value: seq<Unit>) returns (r: seq<Unit>)
    ensures r == Quoted(value)
  {
    if value == [] {
      return [QUOTE, QUOTE];
    }
    if !exists i :: 0 <= i < |value| && ForcesQuotes(value[i]) {
      return value;
    }
    r := [QUOTE];
    var backslashes := 0;
    for i := 0 to |value|
      invariant [QUOTE] + Escaped(value, 0) == r + Escaped(value[i..], backslashes)
    {
      var unit := value[i];
      assert value[i..][1..] == value[i + 1..];
      if unit == BACKSLASH {
        backslashes := backslashes + 1;
      } else if unit == QUOTE {
        r := r + Repeated(BACKSLASH, backslashes * 2 + 1);
        r := r + [unit];
        backslashes := 0;
      } else {
        r := r + Repeated(BACKSLASH, backslashes);
        backslashes := 0;
        r := r + [unit];
      }
    }
    r := r + Repeated(BACKSLASH, backslashes * 2);
    r := r + [QUOTE];
  }

  /** Arguments joined by single spaces. */
  function Joined(arguments: seq<seq<Unit>>): seq<Unit> {
    if arguments == [] then []
    else if |arguments| == 1 then Quoted(arguments[0])
    else Quoted(arguments[0]) + [SPACE] + Joined(arguments[1..])
  }

  // ----- How a process reads its command line -----

  predicate Blank(unit: Unit) {
    unit == SPACE || unit == TAB
  }

  /**
   Reads one argument: its text, and what follows it. Backslashes are literal unless a quote follows; then
   each pair is one backslash and an odd one makes the quote literal, otherwise the quote toggles quoting.
   `doubled` selects the reading in which two quotes inside a quoted part are a literal quote.
   */
  function ReadArgument(s: seq<Unit>, inQuotes: bool, slashes: nat, doubled: bool): (r: (seq<Unit>, seq<Unit>))
    ensures |r.1| <= |s|
    ensures s != [] && (inQuotes || !Blank(s[0])) ==> |r.1| < |s|
    decreases |s|
  {
    if s == [] then
      (Repeated(BACKSLASH, slashes), [])
    else if s[0] == BACKSLASH then
      ReadArgument(s[1..], inQuotes, slashes + 1, doubled)
    else if s[0] == QUOTE then
      var front := Repeated(BACKSLASH, slashes / 2);
      if slashes % 2 == 1 then
        var next := ReadArgument(s[1..], inQuotes, 0, doubled);
        (front + [QUOTE] + next.0, next.1)
      else if inQuotes && doubled && |s| > 1 && s[1] == QUOTE then
        var next := ReadArgument(s[2..], inQuotes, 0, doubled);
        (front + [QUOTE] + next.0, next.1)
      else
        var next := ReadArgument(s[1..], !inQuotes, 0, doubled);
        (front + next.0, next.1)
    else if Blank(s[0]) && !inQuotes then
      (Repeated(BACKSLASH, slashes), s)
    else
      var next := ReadArgument(s[1..], inQuotes, 0, doubled);
      (Repeated(BACKSLASH, slashes) + [s[0]] + next.0, next.1)
  }

  /** The argument list: blanks separate arguments. */
  function Split(s: seq<Unit>, doubled: bool): seq<seq<Unit>>
    decreases |s|
  {
    if s == [] then []
    else if Blank(s[0]) then Split(s[1..], doubled)
    else
      var (argument, rest) := ReadArgument(s, false, 0, doubled);
      [argument] + Split(rest, doubled)
  }

  /** A command line ends at its first NUL. */
  function Text(line: seq<Unit>): seq<Unit> {
    if line == [] || line[0] == 0 then [] else [line[0]] + Text(line[1..])
  }

  predicate StopsName(unit: Unit, quoted: bool) {
    if quoted then unit == QUOTE else Blank(unit)
  }

  /** The program name's text, and what follows it. */
  function ReadName(s: seq<Unit>, quoted: bool): (r: (seq<Unit>, seq<Unit>))
    ensures r.0 + r.1 == s
    ensures forall i :: 0 <= i < |r.0| ==> !StopsName(r.0[i], quoted)
  {
    if s == [] || StopsName(s[0], quoted) then ([], s)
    else
      var next := ReadName(s[1..], quoted);
      ([s[0]] + next.0, next.1)
  }

  /** The special reading of the program name: a quoted name ends at the next quote, and backslashes are literal. */
  function SplitProgram(s: seq<Unit>, doubled: bool): seq<seq<Unit>>
    requires s != []
  {
    if s[0] == QUOTE then
      var (name, rest) := ReadName(s[1..], true);
      [name] + Split(if rest == [] then [] else rest[1..], doubled)
    else
      var (name, rest) := ReadName(s, false);
      [name] + Split(rest, doubled)
  }

  // ----- Quoting is undone by reading -----

  lemma {:induction false} ReadBackslashes(n: nat, rest: seq<Unit>, inQuotes: bool, slashes: nat, doubled: bool)
    ensures ReadArgument(Repeated(BACKSLASH, n) + rest, inQuotes, slashes, doubled)
         == ReadArgument(rest, inQuotes, slashes + n, doubled)
  {
    if n == 0 {
      assert Repeated(BACKSLASH, 0) + rest == rest;
    } else {
      var s := Repeated(BACKSLASH, n) + rest;
      assert s[1..] == Repeated(BACKSLASH, n - 1) + rest;
      ReadBackslashes(n - 1, rest, inQuotes, slashes + 1, doubled);
    }
  }

  /** What may follow an argument: nothing, or a blank. */
  predicate Ends(after: seq<Unit>) {
    after == [] || Blank(after[0])
  }

  /** An escaped unit inside quotes: the backslashes in front of it, then the unit itself. */
  lemma ReadEscapedUnit(unit: Unit, tail: seq<Unit>, slashes: nat, doubled: bool)
    requires unit != BACKSLASH
    ensures var n := if unit == QUOTE then 2 * slashes + 1 else slashes;
            var next := ReadArgument(tail, true, 0, doubled);
            ReadArgument(Repeated(BACKSLASH, n) + [unit] + tail, true, 0, doubled) ==
            (Repeated(BACKSLASH, slashes) + [unit] + next.0, next.1)
  {
    var n := if unit == QUOTE then 2 * slashes + 1 else slashes;
    assert Repeated(BACKSLASH, n) + [unit] + tail == Repeated(BACKSLASH, n) + ([unit] + tail);
    ReadBackslashes(n, [unit] + tail, true, 0, doubled);
    assert ([unit] + tail)[1..] == tail;
    assert (2 * slashes + 1) / 2 == slashes;
  }

  lemma ReadClosingQuote(after: seq<Unit>, slashes: nat, doubled: bool)
    requires Ends(after)
    ensures ReadArgument(Repeated(BACKSLASH, 2 * slashes) + ([QUOTE] + after), true, 0, doubled)
         == (Repeated(BACKSLASH, slashes), after)
  {
    ReadBackslashes(2 * slashes, [QUOTE] + after, true, 0, doubled);
    assert ([QUOTE] + after)[1..] == after;
    assert ReadArgument(after, false, 0, doubled) == ([], after);
    assert 2 * slashes % 2 == 0 && 2 * slashes / 2 == slashes;
    assert Repeated(BACKSLASH, slashes) + [] == Repeated(BACKSLASH, slashes);
  }

  lemma ReadOpeningQuote(tail: seq<Unit>, doubled: bool)
    ensures ReadArgument([QUOTE] + tail, false, 0, doubled) == ReadArgument(tail, true, 0, doubled)
  {
    assert ([QUOTE] + tail)[1..] == tail;
    var next := ReadArgument(tail, true, 0, doubled);
    assert Repeated(BACKSLASH, 0) + next.0 == next.0;
  }

  lemma EscapedFirst(value: seq<Unit>, slashes: nat, after: seq<Unit>)
    requires value != [] && value[0] != BACKSLASH
    ensures Escaped(value, slashes) + after
         == Repeated(BACKSLASH, if value[0] == QUOTE then 2 * slashes + 1 else slashes) + [value[0]]
            + (Escaped(value[1..], 0) + after)
  {
  }

  lemma {:induction false} ReadEscaped(value: seq<Unit>, slashes: nat, after: seq<Unit>, doubled: bool)
    requires Ends(after)
    ensures ReadArgument(Escaped(value, slashes) + ([QUOTE] + after), true, 0, doubled)
         == (Repeated(BACKSLASH, slashes) + value, after)
    decreases |value|
  {
    if value == [] {
      ReadClosingQuote(after, slashes, doubled);
      assert Repeated(BACKSLASH, slashes) + value == Repeated(BACKSLASH, slashes);
    } else if value[0] == BACKSLASH {
      ReadEscaped(value[1..], slashes + 1, after, doubled);
      assert Repeated(BACKSLASH, slashes + 1) + value[1..] == Repeated(BACKSLASH, slashes) + value;
    } else {
      var tail := Escaped(value[1..], 0) + ([QUOTE] + after);
      ReadEscapedUnit(value[0], tail, slashes, doubled);
      ReadEscaped(value[1..], 0, after, doubled);
      assert Repeated(BACKSLASH, slashes) + [value[0]] + (Repeated(BACKSLASH, 0) + value[1..])
          == Repeated(BACKSLASH, slashes) + value;
      EscapedFirst(value, slashes, [QUOTE] + after);
    }
  }

  lemma {:induction false} ReadPlain(value: seq<Unit>, slashes: nat, after: seq<Unit>, doubled: bool)
    requires Ends(after) && forall i :: 0 <= i < |value| ==> !ForcesQuotes(value[i])
    ensures ReadArgument(value + after, false, slashes, doubled) == (Repeated(BACKSLASH, slashes) + value, after)
    decreases |value|
  {
    if value == [] {
      assert value + after == after;
      assert Repeated(BACKSLASH, slashes) + value == Repeated(BACKSLASH, slashes);
    } else {
      assert (value + after)[1..] == value[1..] + after;
      if value[0] == BACKSLASH {
        ReadPlain(value[1..], slashes + 1, after, doubled);
        assert Repeated(BACKSLASH, slashes + 1) + value[1..] == Repeated(BACKSLASH, slashes) + value;
      } else {
        ReadPlain(value[1..], 0, after, doubled);
        assert Repeated(BACKSLASH, slashes) + [value[0]] + (Repeated(BACKSLASH, 0) + value[1..])
            == Repeated(BACKSLASH, slashes) + value;
      }
    }
  }

  /** One argument: reading undoes quoting, under either reading of doubled quotes. */
  lemma ReadQuoted(value: seq<Unit>, after: seq<Unit>, doubled: bool)
    requires Ends(after)
    ensures Quoted(value) != [] && !Blank(Quoted(value)[0])
    ensures ReadArgument(Quoted(value) + after, false, 0, doubled) == (value, after)
  {
    assert Repeated(BACKSLASH, 0) + value == value;
    if NeedsQuotes(value) {
      var inner := Escaped(value, 0) + ([QUOTE] + after);
      ReadEscaped(value, 0, after, doubled);
      assert Quoted(value) + after == [QUOTE] + inner;
      ReadOpeningQuote(inner, doubled);
    } else {
      ReadPlain(value, 0, after, doubled);
    }
  }

  /** Whole lists: empty arguments, backslash runs before quotes and trailing backslashes all survive. */
  lemma {:induction false} SplitUndoesJoined(arguments: seq<seq<Unit>>, doubled: bool)
    ensures Split(Joined(arguments), doubled) == arguments
  {
    hide ReadArgument, Quoted;
    if arguments != [] {
      var after := if |arguments| == 1 then [] else [SPACE] + Joined(arguments[1..]);
      ReadQuoted(arguments[0], after, doubled);
      assert Joined(arguments) == Quoted(arguments[0]) + after;
      if |arguments| > 1 {
        SplitUndoesJoined(arguments[1..], doubled);
        assert after[1..] == Joined(arguments[1..]);
      }
      assert arguments == [arguments[0]] + arguments[1..];
    }
  }

  lemma {:induction false} EscapedHasNoNul(value: seq<Unit>, slashes: nat)
    requires 0 !in value
    ensures 0 !in Escaped(value, slashes)
    decreases |value|
  {
    if value != [] {
      EscapedHasNoNul(value[1..], if value[0] == BACKSLASH then slashes + 1 else 0);
    }
  }

  lemma {:induction false} JoinedHasNoNul(arguments: seq<seq<Unit>>)
    requires forall i :: 0 <= i < |arguments| ==> 0 !in arguments[i]
    ensures 0 !in Joined(arguments)
  {
    if arguments != [] {
      EscapedHasNoNul(arguments[0], 0);
      JoinedHasNoNul(arguments[1..]);
    }
  }

  lemma {:induction false} TextEndsAtNul(s: seq<Unit>)
    requires 0 !in s
    ensures Text(s + [0]) == s
  {
    if s != [] {
      assert (s + [0])[1..] == s[1..] + [0];
      TextEndsAtNul(s[1..]);
    }
  }

  lemma {:induction false} JoinedAppend(arguments: seq<seq<Unit>>, last: seq<Unit>)
    ensures Joined(arguments) == [] <==> arguments == []
    ensures Joined(arguments + [last])
         == if arguments == [] then Quoted(last) else Joined(arguments) + [SPACE] + Quoted(last)
  {
    if arguments != [] {
      ReadQuoted(arguments[0], [], false);
      JoinedAppend(arguments[1..], last);
      assert (arguments + [last])[1..] == arguments[1..] + [last];
    }
  }

  // ----- The program name -----

  /** The number of backslashes pending at the end of `value`, when `slashes` precede it. */
  function TrailingRun(value: seq<Unit>, slashes: nat): nat
    decreases |value|
  {
    if value == [] then slashes
    else TrailingRun(value[1..], if value[0] == BACKSLASH then slashes + 1 else 0)
  }

  lemma {:induction false} TrailingRunIsZero(value: seq<Unit>, slashes: nat)
    ensures TrailingRun(value, slashes) == 0 <==> if value == [] then slashes == 0 else value[|value| - 1] != BACKSLASH
    decreases |value|
  {
    if value != [] {
      TrailingRunIsZero(value[1..], if value[0] == BACKSLASH then slashes + 1 else 0);
    }
  }

  lemma {:induction false} EscapedWithoutQuotes(value: seq<Unit>, slashes: nat)
    requires QUOTE !in value
    ensures Escaped(value, slashes)
         == Repeated(BACKSLASH, slashes) + value + Repeated(BACKSLASH, TrailingRun(value, slashes))
    decreases |value|
  {
    if value == [] {
      assert Repeated(BACKSLASH, 2 * slashes) == Repeated(BACKSLASH, slashes) + Repeated(BACKSLASH, slashes);
    } else {
      var pending := if value[0] == BACKSLASH then slashes + 1 else 0;
      EscapedWithoutQuotes(value[1..], pending);
      var run := Repeated(BACKSLASH, TrailingRun(value, slashes));
      if value[0] == BACKSLASH {
        assert Repeated(BACKSLASH, pending) + value[1..] + run == Repeated(BACKSLASH, slashes) + value + run;
      } else {
        assert Repeated(BACKSLASH, slashes) + [value[0]] + (Repeated(BACKSLASH, 0) + value[1..] + run)
            == Repeated(BACKSLASH, slashes) + value + run;
      }
    }
  }

  lemma {:induction false} ReadWholeName(s: seq<Unit>, after: seq<Unit>, quoted: bool)
    requires forall i :: 0 <= i < |s| ==> !StopsName(s[i], quoted)
    requires after != [] ==> StopsName(after[0], quoted)
    ensures ReadName(s + after, quoted) == (s, after)
  {
    if s == [] {
      assert s + after == after;
    } else {
      assert (s + after)[1..] == s[1..] + after;
      ReadWholeName(s[1..], after, quoted);
      assert s == [s[0]] + s[1..];
    }
  }

  /** The names that the special rule for the program name reads back unchanged. */
  predicate NameSurvives(name: seq<Unit>) {
    NeedsQuotes(name) ==> QUOTE !in name && (name != [] ==> name[|name| - 1] != BACKSLASH)
  }

  lemma SkipsQuote(after: seq<Unit>)
    ensures ([QUOTE] + after)[1..] == after
  {
  }

  lemma ReadQuotedName(text: seq<Unit>, after: seq<Unit>, doubled: bool)
    requires QUOTE !in text
    ensures SplitProgram([QUOTE] + text + [QUOTE] + after, doubled) == [text] + Split(after, doubled)
  {
    hide Split, ReadName;
    var line := [QUOTE] + text + [QUOTE] + after;
    assert line[1..] == text + ([QUOTE] + after);
    ReadWholeName(text, [QUOTE] + after, true);
    SkipsQuote(after);
  }

  /** A program name followed by the rest of the line is read back exactly when it survives. */
  lemma ReadProgramName(name: seq<Unit>, after: seq<Unit>, doubled: bool)
    requires Ends(after)
    ensures Quoted(name) != []
    ensures var read := SplitProgram(Quoted(name) + after, doubled);
            if NameSurvives(name) then read == [name] + Split(after, doubled) else read[0] != name
  {
    var line := Quoted(name) + after;
    if !NeedsQuotes(name) {
      ReadWholeName(name, after, false);
    } else if QUOTE in name {
      assert SplitProgram(line, doubled)[0] == ReadName(line[1..], true).0;
    } else {
      var text := Escaped(name, 0);
      EscapedWithoutQuotes(name, 0);
      TrailingRunIsZero(name, 0);
      assert text == name + Repeated(BACKSLASH, TrailingRun(name, 0));
      assert TrailingRun(name, 0) == 0 ==> text == name;
      assert TrailingRun(name, 0) > 0 ==> |text| != |name|;
      assert QUOTE !in text;
      ReadQuotedName(text, after, doubled);
      assert line == [QUOTE] + text + [QUOTE] + after;
    }
  }

  /**
   The program name is read without the backslash rules, so the list survives exactly when its first argument
   needs no quotes, or holds none and does not end in a backslash.
   */
  lemma ProgramNameRule(command: seq<seq<Unit>>, doubled: bool)
    requires Launchable(command)
    ensures Joined(command) != []
    ensures SplitProgram(Joined(command), doubled) == command <==> NameSurvives(command[0])
  {
    var name := command[0];
    var after := if |command| == 1 then [] else [SPACE] + Joined(command[1..]);
    assert Joined(command) == Quoted(name) + after;
    SplitUndoesJoined(command[1..], doubled);
    assert |command| > 1 ==> after[1..] == Joined(command[1..]);
    assert command == [name] + command[1..];
    ReadProgramName(name, after, doubled);
  }

  /** A name the special rule loses: one that holds a space and ends in a backslash. */
  lemma ProgramNameCanBeLost(doubled: bool)
    ensures var command := [[0x61, SPACE, BACKSLASH]];
            Launchable(command) && Joined(command) != [] && SplitProgram(Joined(command), doubled) != command
  {
    var name: seq<Unit> := [0x61, SPACE, BACKSLASH];
    var command := [name];
    assert ForcesQuotes(name[1]);
    ProgramNameRule(command, doubled);
  }

  /**
   Builds the NUL-terminated command line. Splitting it gives the arguments back; under the special rule for the
   program name it does so exactly when that name survives.
   */
  method BuildCommandLine(arguments: seq<seq<Unit>>) returns (line: seq<Unit>)
    requires forall i :: 0 <= i < |arguments| ==> 0 !in arguments[i]
    ensures line == Joined(arguments) + [0] && 0 !in line[..|line| - 1]
    ensures forall doubled :: Split(Text(line), doubled) == arguments
    ensures Launchable(arguments) ==> Text(line) != [] && forall doubled ::
                (SplitProgram(Text(line), doubled) == arguments <==> NameSurvives(arguments[0]))
  {
    line := [];
    for i := 0 to |arguments|
      invariant line == Joined(arguments[..i])
    {
      JoinedAppend(arguments[..i], arguments[i]);
      assert arguments[..i + 1] == arguments[..i] + [arguments[i]];
      if line != [] {
        line := line + [SPACE];
      }
      var quoted := QuoteArgument(arguments[i]);
      line := line + quoted;
    }
    assert arguments[..|arguments|] == arguments;
    JoinedHasNoNul(arguments);
    TextEndsAtNul(line);
    line := line + [0];
    assert line[..|line| - 1] == Joined(arguments);
    forall doubled
      ensures Split(Text(line), doubled) == arguments
    {
      SplitUndoesJoined(arguments, doubled);
    }
    if Launchable(arguments) {
      ProgramNameRule(arguments, false);
      ProgramNameRule(arguments, true);
    }
  }
}

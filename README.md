# Brainfuck interpreter engine, modelled in Dafny

This project models the Brainfuck interpreter `Engine1` and the two classes
that connect an engine to strings: `StringEngine` and `StringOutputEngine`.

`Engine1` keeps the script as a `char[]` with a script pointer, and a tape of
20 `int` cells with a cell pointer that wraps at both ends. It also holds an
input stream and an output stream. `interpret` first checks the script with
`checkScript`, then runs the command under the script pointer and increments
the pointer, until the pointer reaches the end of the script. Loops use
`findLoopBound`, which scans for a bracket forwards from `[` or backwards
from `]`.

`StringEngine` feeds an engine from a string and collects what it writes
into another string. `StringOutputEngine` reads from a string or a stream,
and its output is the decimal text of each printed cell.

The modules:

- `JavaTypes` (`java_types.dfy`): Java's `int` with 32-bit wrap-around, `char`
  as a 16-bit code unit, the `(char)` cast, and the decimal text of
  `String.valueOf(int)` with its round trip.
- `Tape` (`tape.dfy`): the cell-pointer moves, and what `k` moves in a row
  do.
- `Script` (`script.dfy`):
  - the command characters;
  - the count check of `checkScript`;
  - the bracket scan of `findLoopBound` (`ScanFrom`);
  - a depth-counting reference match (`MatchFrom`) that the scan is compared
    with.
- `Semantics` (`semantics.dfy`): all of an engine's state as a value,
  `Machine`, with one function per command method of `Engine1`; one step of
  the `interpret` loop (`Step`); a run bounded by a step budget (`Run` and
  `Turn`, which call each other, and `Execute`); and lemmas about steps, runs
  and some concrete scripts.
- `Interpreter` (`engine1.dfy`): the class `Engine1`. It has the script and
  the cells as arrays and the pointers as fields. Each method is proved to
  change `State()`, the fields seen as a `Machine`, as a function in
  `Semantics` says:
  - `NextCell`, `PreviousCell`, `Increase`, `Decrease`, `FindLoopBound`,
    `Startloop`, `Endloop`, `Getchar`, `Putchar` and `Dispatch` as the
    `Machine` function of the same name;
  - `CheckScript` against `Script.Balanced`;
  - `SearchBound` against `Script.ScanFrom`;
  - `Turn` against `Semantics.Turn`;
  - `RunLoop` against `Semantics.Run`;
  - `Interpret` against `Semantics.Execute`.
- `BrainfuckInterpreter` (`string_engine.dfy`): the class `StringEngine`, with
  its `read()` and `write(i)` and an `interpret` that runs an engine. It
  runs an `Engine1` as that engine (see "Left out").
- `Engine` (`string_output_engine.dfy`): the class `StringOutputEngine`, with
  its two constructors, `getchar`, `putchar` and `interpret`.

Where the code and the documented intent differ, the model follows the code:

- `checkScript` compares only the numbers of `[` and `]`, so `][` is accepted
  (`Script.BalancedAcceptsMisnested`, `Semantics.MisnestedRunsOffTheEnd`).
- The search loop of `findLoopBound` leaves at the first bracket of either
  kind, because of the `break` on the starting kind. It lands on the
  "corresponding bound" of its doc comment only when no bracket of the
  starting kind lies in between (`Script.ScanMatchesUnlessNested`,
  `Script.ScanMissesNestedMatch`).
- `case PRINT` has no `break`, so every `.` also reads input, and `+.` with no
  input ends in `NoInputException` (`Semantics.StepPrintFallsThrough`,
  `Semantics.IncrementPrintWithoutInput`).
- A scan that finds no bracket runs `getCurrentCmd` off the script. The model
  ends such a run with `IndexOutOfBounds` and leaves the script pointer at -1
  or at the script length, where Java leaves it.

## Model

| member | source | states |
|---|---|---|
| Interpreter.Engine1.constructor | src/Engine1.java:44-53 | the state is the initial machine: the given script and input, 20 zero cells, both pointers 0, no output |
| Interpreter.Engine1.CheckScript | src/Engine1.java:117-135 | returns true exactly when the script has as many `[` as `]`; nothing is modified |
| Interpreter.Engine1.NextCell | src/Engine1.java:154-159 | the cell pointer becomes `(cellPtr + 1) mod 20`, wrapping 19 to 0; nothing else changes |
| Interpreter.Engine1.PreviousCell | src/Engine1.java:164-169 | the cell pointer becomes `(cellPtr - 1) mod 20`, wrapping 0 to 19; nothing else changes |
| Interpreter.Engine1.Increase | src/Engine1.java:174-176 | the current cell becomes its 32-bit wrapped successor; every other cell and both pointers are unchanged |
| Interpreter.Engine1.Decrease | src/Engine1.java:181-183 | the current cell becomes its 32-bit wrapped predecessor; every other cell and both pointers are unchanged |
| Interpreter.Engine1.FindLoopBound | src/Engine1.java:223-244 | off a bracket it throws and changes nothing; on `[` or `]` it moves the script pointer to the scan's result, and throws index-out-of-bounds when the scan leaves the script |
| Interpreter.Engine1.SearchBound | src/Engine1.java:246-266 | the search loop leaves the script pointer on the first bracket (either kind) in the scan direction, or just outside the script, and reports which |
| Interpreter.Engine1.Startloop | src/Engine1.java:192-198 | a nonzero cell leaves everything unchanged; a zero cell runs the bound search |
| Interpreter.Engine1.Endloop | src/Engine1.java:207-215 | a zero cell leaves everything unchanged; a nonzero cell runs the bound search |
| Interpreter.Engine1.Getchar | src/Engine1.java:279-290 | throws no-input exactly when the stream is exhausted, leaving the cell unchanged; otherwise the next value goes into the current cell |
| Interpreter.Engine1.Putchar | src/Engine1.java:298-300 | appends `(char)` of the current cell to the output; nothing else changes |
| Interpreter.Engine1.Dispatch | src/Engine1.java:75-105 | runs the command under the script pointer as the `switch` does, with `.` falling through into `,` and other characters doing nothing |
| Interpreter.Engine1.Interpret | src/Engine1.java:66-109 | the outcome and final state are those of the bounded run; an unbalanced script fails with invalid-script before any command runs, state untouched; input is only consumed from the front and output only appended |
| Interpreter.Engine1.Turn | src/Engine1.java:74-107 | one pass of the loop body: a throwing command ends the run with its fault and the state it left; otherwise the script pointer moves on by one and the run goes on from the new state |
| Interpreter.Engine1.RunLoop | src/Engine1.java:73-108 | the `while` loop gives exactly the bounded run: halted once the script pointer equals the script length, failed on a throw (including a script pointer of -1), or out of budget |
| Tape.NextIndex | src/Engine1.java:154-159 | the next cell index stays in range and is `(i + 1) mod 20` |
| Tape.PreviousIndex | src/Engine1.java:164-169 | the previous cell index stays in range and is `(i - 1) mod 20` |
| Tape.NextPreviousInverse | src/Engine1.java:154-169 | a move right then left, or left then right, returns to the start |
| Tape.AdvanceIsShift | src/Engine1.java:154-159 | `k` moves right from `i` reach `(i + k) mod 20` |
| Tape.RetreatIsShift | src/Engine1.java:164-169 | `k` moves left from `i` reach `(i - k) mod 20` |
| Tape.Advance | src/Engine1.java:154-159 | `k` moves right from a cell index stay on the tape |
| Tape.AdvanceTurns | src/Engine1.java:154-159 | `k` moves right from `i` end at `i + k` less some whole number of turns of 20 cells |
| Tape.Retreat | src/Engine1.java:164-169 | `k` moves left from a cell index stay on the tape |
| Tape.RetreatTurns | src/Engine1.java:164-169 | `k` moves left from `i` end at `i - k` plus some whole number of turns of 20 cells |
| Tape.FullTurns | src/Engine1.java:154-169 | any multiple of 20 moves in one direction returns to the start cell |
| JavaTypes.Wrap32 | src/Engine1.java:175 | the result is a Java `int` congruent to the value modulo 2^32 |
| JavaTypes.Increment | src/Engine1.java:175 | `x++` equals the wrapped `x + 1` |
| JavaTypes.Decrement | src/Engine1.java:182 | `x--` equals the wrapped `x - 1` |
| JavaTypes.IncrementDecrementInverse | src/Engine1.java:174-183 | `++` and `--` undo each other on every `int`, including at the wrap points |
| JavaTypes.ToChar | src/Engine1.java:299 | `(char) i` is a 16-bit code unit congruent to `i` modulo 2^16 |
| JavaTypes.ToCharKeepsChars | src/Engine1.java:299 | `(char)` of a value read as a character gives that character back |
| JavaTypes.DigitsOf | src/Engine/StringOutputEngine.java:49 | the digit text of a natural number is nonempty, made of decimal digits, and starts with `0` only for zero |
| JavaTypes.Decimal | src/Engine/StringOutputEngine.java:49 | `String.valueOf(n)` starts with `-` exactly when `n` is negative |
| JavaTypes.DigitsRoundTrip | src/Engine/StringOutputEngine.java:49 | reading back the digits of `n` gives `n` |
| JavaTypes.DecimalRoundTrip | src/Engine/StringOutputEngine.java:49 | parsing `String.valueOf(n)` gives `n` back, for negative numbers too |
| JavaTypes.DecimalInjective | src/Engine/StringOutputEngine.java:49 | distinct cell values print as distinct texts |
| JavaTypes.DecimalOfSixtyFive | src/Engine/StringOutputEngine.java:49 | the cell value 65 prints as the two characters `6` `5`, not as `A` |
| Script.WellNestedIsBalanced | src/Engine1.java:117-135 | every properly nested script passes the count check |
| Script.BalancedAcceptsMisnested | src/Engine1.java:117-135 | `][` passes the count check although it is not properly nested |
| Script.Count | src/Engine1.java:117-135 | the count of a character in a script is at most the script length, and zero exactly when the character does not occur |
| Script.CountSnoc | src/Engine1.java:122-132 | one more character adds one to the count of that character and nothing to the counts of others, as each turn of the `checkScript` loop does |
| Script.Balanced | src/Engine1.java:117-135 | what `checkScript` accepts: as many `[` as `]`; every script without brackets is accepted |
| Script.ScanFrom | src/Engine1.java:250-266 | the scan ends on a bracket or just outside the script, with no bracket between its start and its end |
| Script.ScanReaches | src/Engine1.java:250-266 | a scan with no bracket before a bracket at `j` stops at `j` |
| Script.MatchFrom | src/Engine1.java:217-222 | the reference match ends on the opposite bracket or outside the script |
| Script.ScanMatchesUnlessNested | src/Engine1.java:217-266 | the scan's result is the matching bound exactly when the scan did not stop on a bracket of its starting kind |
| Script.ScanMissesNestedMatch | src/Engine1.java:250-266 | in `[[]]` the scan from the outer `[` stops at index 1, while the matching `]` is at index 3 |
| Semantics.Machine.NextCell | src/Engine1.java:154-159 | only the cell pointer changes, to `(cellPtr + 1) mod 20` |
| Semantics.Machine.PreviousCell | src/Engine1.java:164-169 | only the cell pointer changes, to `(cellPtr - 1) mod 20` |
| Semantics.Machine.Increase | src/Engine1.java:174-176 | only the current cell changes, to the 32-bit wrapped value plus one |
| Semantics.Machine.Decrease | src/Engine1.java:181-183 | only the current cell changes, to the 32-bit wrapped value minus one |
| Semantics.Machine.FindLoopBound | src/Engine1.java:223-267 | only the script pointer changes; off a bracket it throws not-on-loop-bound; from `[` it moves forwards and from `]` backwards past no bracket; it succeeds exactly when it lands inside the script, on a bracket, and otherwise throws index-out-of-bounds |
| Semantics.Machine.Startloop | src/Engine1.java:192-198 | a nonzero cell changes nothing; a zero cell has the effect of the bound search |
| Semantics.Machine.Endloop | src/Engine1.java:207-215 | a zero cell changes nothing; a nonzero cell has the effect of the bound search |
| Semantics.Machine.Getchar | src/Engine1.java:279-290 | throws no-input, changing nothing, exactly when no input is left; otherwise the first value left goes into the current cell and is removed from the input, and nothing else changes |
| Semantics.Machine.Putchar | src/Engine1.java:298-300 | only the output changes, by `(char)` of the current cell appended |
| Semantics.Machine.Dispatch | src/Engine1.java:75-105 | the script never changes; only `[` and `]` move the script pointer; a character that is not a command changes nothing; the only faults are no-input and index-out-of-bounds |
| Semantics.Machine.Step | src/Engine1.java:73-108 | a turn of the loop keeps the machine valid and the script unchanged |
| Semantics.StepStreams | src/Engine1.java:73-108 | a turn consumes input only from the front and only appends output |
| Semantics.StepSkipsNonCommands | src/Engine1.java:75-107 | a non-command character only advances the script pointer by one |
| Semantics.StepChangesOneCell | src/Engine1.java:76-82 | `+` and `-` change only the current cell, by one with wrap-around, and advance the script pointer |
| Semantics.StepPrintFallsThrough | src/Engine1.java:100-104 | `.` prints the cell and then reads: with no input it throws after printing, otherwise the cell takes the next value |
| Semantics.StepGetWithoutInput | src/Engine1.java:279-283 | `,` with no input throws no-input and changes nothing |
| Semantics.StepOpenLoop | src/Engine1.java:92-94 | `[` on nonzero enters the loop; on zero resumes just past the nearest bracket after it; with none, fails out of bounds at the end of the script |
| Semantics.StepCloseLoop | src/Engine1.java:96-98 | `]` on zero leaves the loop; on nonzero resumes just past the nearest bracket before it; with none, fails out of bounds at -1 |
| Semantics.StepJumpsToMatch | src/Engine1.java:192-221 | when the scan meets the opposite bracket, a loop jump resumes just past the matching bound |
| Semantics.Initial | src/Engine1.java:44-53 | the machine after construction: the given script and input, both pointers 0, no output, every cell 0 |
| Semantics.Run | src/Engine1.java:73-108 | a run keeps the machine valid and the script unchanged |
| Semantics.Turn | src/Engine1.java:74-107 | a turn of the loop keeps the machine valid and the script unchanged |
| Semantics.TurnDispatches | src/Engine1.java:74-107 | a turn is the `switch` followed by `scriptPtr++` when the command returns normally, and the end of the run with the command's fault when it throws |
| Semantics.Execute | src/Engine1.java:66-109 | `interpret` fails with invalid-script exactly when the script fails the count check, and then before any command runs, leaving the state as it was |
| Semantics.RunStreams | src/Engine1.java:73-108 | a run keeps the machine valid and the script fixed, consumes input only from the front and only appends output |
| Semantics.RunOutcomes | src/Engine1.java:73 | a run reports halted only at the end of the script, and always when it starts there; it runs out of budget only before the end; it never reports invalid-script |
| Semantics.RunMoreFuel | src/Engine1.java:73-108 | a run that ended within its budget ends the same way with any larger budget |
| Semantics.ExecuteStreams | src/Engine1.java:66-109 | the same stream and validity facts hold for the whole of `interpret` |
| Semantics.IncrementPrintWithoutInput | src/Engine1.java:100-104 | `+.` with no input prints the value 1 and then fails with no-input |
| Semantics.EchoOneCharacter | src/Engine1.java:100-104 | `,.` with input `A` prints `A` and fails on the second read |
| Semantics.CountDownLoop | src/Engine1.java:92-98 | `+[-]` halts with the cell back at 0 and no output |
| Semantics.MisnestedRunsOffTheEnd | src/Engine1.java:117-135 | `][` is accepted and then fails out of bounds with the script pointer at 2 |
| Semantics.LoneOpenRejected | src/Engine1.java:68-71 | `[` alone is rejected before it runs |
| BrainfuckInterpreter.StringEngine.constructor | src/BrainfuckInterpreter/StringEngine.java:15-34 | `input` is a copy of the input string, nothing read or written yet, and the engine starts on the script with that string as its input |
| BrainfuckInterpreter.StringEngine.Read | src/BrainfuckInterpreter/StringEngine.java:27-30 | returns the character at `inputPtr` and advances it by one, or returns -1 and leaves it unchanged at the end; `0 <= inputPtr <= input.length` is kept |
| BrainfuckInterpreter.StringEngine.Write | src/BrainfuckInterpreter/StringEngine.java:20-22 | appends exactly `(char) i` to `output` |
| BrainfuckInterpreter.StringEngine.Interpret | src/BrainfuckInterpreter/StringEngine.java:36-39 | the engine runs as `interpret` does; the result is `output`, which is what the engine printed; `inputPtr` and `output` only grow; the values the engine consumed are `input[old inputPtr .. inputPtr]`, which with `RunConsumesReads` are the values of that many `read()` calls |
| BrainfuckInterpreter.StringEngine.TrackStreams | src/BrainfuckInterpreter/StringEngine.java:20-30 | after a run, `inputPtr` has advanced past exactly the values the engine consumed and `output` is what the engine printed |
| BrainfuckInterpreter.ReadsInOrder | src/BrainfuckInterpreter/StringEngine.java:27-30 | successive reads return the unread characters in order, each once, and then -1 for ever |
| BrainfuckInterpreter.ReadAt | src/BrainfuckInterpreter/StringEngine.java:27-30 | one `read()`: -1 exactly at the end of the input, with the position unchanged; otherwise the character at the position, and the position moves on by one |
| BrainfuckInterpreter.Reads | src/BrainfuckInterpreter/StringEngine.java:27-30 | `k` successive reads give `k` values |
| BrainfuckInterpreter.ReadsWithin | src/BrainfuckInterpreter/StringEngine.java:27-30 | reads that stay within the input give its characters in order |
| BrainfuckInterpreter.ReadsExhausted | src/BrainfuckInterpreter/StringEngine.java:27-30 | reads at the end of the input give -1 every time |
| BrainfuckInterpreter.ReadsBeyond | src/BrainfuckInterpreter/StringEngine.java:27-30 | reads that run past the end give the rest of the input, then -1s |
| BrainfuckInterpreter.RunConsumesReads | src/BrainfuckInterpreter/StringEngine.java:27-39 | the values an engine run consumed, as `StringEngine.Interpret` states them, are exactly those of successive `read()` calls from the old `inputPtr`, in order |
| BrainfuckInterpreter.FreshAdapterStreamsInput | src/BrainfuckInterpreter/StringEngine.java:15-30 | from a fresh adapter, the reads give exactly the input string followed by -1s |
| Engine.StringOutputEngine.FromStream | src/Engine/StringOutputEngine.java:14-18 | the stream constructor sets a (non-null) stream, empty output and zero cells |
| Engine.StringOutputEngine.FromString | src/Engine/StringOutputEngine.java:20-23 | the string constructor leaves the stream null and stores the input string |
| Engine.StringOutputEngine.Getchar | src/Engine/StringOutputEngine.java:26-45 | with a null stream: an empty string throws no-input and changes nothing, otherwise its first character goes into the current cell and is removed; the stream branch behaves the same on the stream's values |
| Engine.StringOutputEngine.Putchar | src/Engine/StringOutputEngine.java:48-50 | appends the decimal text of the current cell to `output` |
| Engine.StringOutputEngine.Interpret | src/Engine/StringOutputEngine.java:52-55 | returns `output` |

## Left out

- The debug line `System.out.println(cells[0] + " " + cells[1])` at the top of each loop turn prints to the console only and changes no state.
- `System.exit(5)`, `System.exit(2)` and `printStackTrace` do not stop a process here. An invalid script becomes the outcome `Failed(InvalidScript)`. `IOException` is not modelled.
- Streams are sequences of values. Engine1's `input` is what `read()` would still return before -1, and its `output` holds one `(char)` per `putchar`. The `println` newline, the output encoding and `BufferedInputStream` buffering are not modelled.
- The byte narrowing that a `BufferedInputStream` inside `Engine1` would apply to values above 255 from `StringEngine`'s stream is not modelled. Under the assumption that `BrainfuckInterpreter.Engine` behaves as `Engine1`, the engine sees the characters themselves.
- `interpret` may loop for ever. The model runs it with a budget of `fuel` turns, and the result `OutOfFuel` stands for a run that is still going.
- Scripts of 2^31 characters or more, where `scriptPtr` would overflow, are not modelled.
- `src/Engine.java` and `src/BrainfuckInterpreter/BfInterpreter.java` are not part of this model.
- The superclasses of the two adapters and `BrainfuckInterpreter.Engine` are not part of this model. `BrainfuckInterpreter.Engine` is assumed to behave as `Engine1`: `StringEngine` constructs it as `new Engine(script, in, out)` at `StringEngine.java:33`, and the model runs an `Engine1` in its place. What the model states about `StringEngine`'s engine, its reads and its writes rests on that assumption. `StringOutputEngine` takes its cells and cell pointer to be like those of `Engine1`.
- BrainfuckInterpreter.StringEngine.Interpret: `inputPtr` counts the values the engine has consumed. This rests on the assumption that `BrainfuckInterpreter.Engine` behaves as `Engine1` and calls `read()` once per value it consumes. A buffered engine may read further ahead, which no caller of `StringEngine` can observe.
- Engine.StringOutputEngine.Interpret: states only that the result is `output`. The superclass's `_interpret`, which runs the script first, is not part of this model.
- Engine.StringOutputEngine.Getchar: the stream branch reads from an abstract sequence of values, not from a real `BufferedInputStream`.

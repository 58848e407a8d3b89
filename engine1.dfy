/** The interpreter engine `Engine1`: a script cursor over a `char[]` script, a
    20-cell `int` tape with a wrapping cell pointer, and the input and output
    streams, seen as the values still to be read and the values printed.
    `NextCell`, `PreviousCell`, `Increase`, `Decrease`, `FindLoopBound`,
    `Startloop`, `Endloop`, `Getchar`, `Putchar` and `Dispatch` change the
    machine `State()` as the `Semantics.Machine` function of the same name
    does. The others are proved against other definitions: `CheckScript`
    against `Script.Balanced`, `SearchBound` against `Script.ScanFrom`,
    `Turn` against `Semantics.Turn`, `RunLoop` against `Semantics.Run` and
    `Interpret` against `Semantics.Execute`. */
module Interpreter {
  import opened JavaTypes
  import opened Wrappers
  import opened Tape
  import opened Script
  import opened Semantics

  class Engine1 {
    // the program text, one `char` per element
    const script: array<JChar>
    // index of the command being run
    var scriptPtr: int
    // the tape of `N_CELLS` integer cells
    const cells: array<Int32>
    // index of the current cell
    var cellPtr: int
    // what the input stream's `read()` still yields before it returns -1
    var input: seq<JChar>
    // the `(char)` of every printed cell, in order
    var output: seq<JChar>

    ghost predicate Valid()
      reads this
    {
      cells.Length == N_CELLS && 0 <= cellPtr < N_CELLS && -1 <= scriptPtr <= script.Length
    }

    /** The whole state of the engine as a value. */
    ghost function State(): (m: Machine)
      reads this, script, cells
      ensures Valid() ==> m.Valid()
    {
      Machine(script[..], scriptPtr, cells[..], cellPtr, input, output)
    }

    /** `new Engine1(script, in, out)`: all cells 0, both pointers at 0. */
    constructor (s: seq<JChar>, stream: seq<JChar>)
      ensures Valid() && fresh(script) && fresh(cells)
      ensures State() == Initial(s, stream)
      ensures forall k :: 0 <= k < N_CELLS ==> cells[k] == 0
    {
      script := new JChar[|s|](k requires 0 <= k < |s| => s[k]);
      cells := new Int32[N_CELLS](_ => 0);
      cellPtr := 0;
      scriptPtr := 0;
      input := stream;
      output := [];
      new;
      assert script[..] == s;
      assert cells[..] == seq(N_CELLS, _ => 0);
    }

    /** `checkScript`: counts `[` up and `]` down and accepts a final count of
        zero. It ignores order, so `][` passes. */
    method CheckScript() returns (ok: bool)
      ensures ok <==> Balanced(script[..])
    {
      var ptr := 0;
      var loopCounter := 0;
      while ptr < script.Length
        invariant 0 <= ptr <= script.Length
        invariant loopCounter == Count(script[..ptr], OPEN_LOOP) - Count(script[..ptr], CLOSE_LOOP)
      {
        assert script[..ptr + 1] == script[..ptr] + [script[ptr]];
        CountSnoc(script[..ptr], script[ptr], OPEN_LOOP);
        CountSnoc(script[..ptr], script[ptr], CLOSE_LOOP);
        if script[ptr] == OPEN_LOOP {
          loopCounter := loopCounter + 1;
        } else if script[ptr] == CLOSE_LOOP {
          loopCounter := loopCounter - 1;
        }
        ptr := ptr + 1;
      }
      assert script[..ptr] == script[..];
      ok := loopCounter == 0;
    }

    method NextCell()
      requires Valid()
      modifies this`cellPtr
      ensures Valid() && State() == old(State()).NextCell()
      ensures cellPtr == (old(cellPtr) + 1) % N_CELLS
    {
      if cellPtr == N_CELLS - 1 {
        cellPtr := 0;
      } else {
        cellPtr := cellPtr + 1;
      }
    }

    method PreviousCell()
      requires Valid()
      modifies this`cellPtr
      ensures Valid() && State() == old(State()).PreviousCell()
      ensures cellPtr == (old(cellPtr) - 1) % N_CELLS
    {
      if cellPtr == 0 {
        cellPtr := N_CELLS - 1;
      } else {
        cellPtr := cellPtr - 1;
      }
    }

    /** `cells[cellPtr]++`, with 32-bit wrap-around. */
    method Increase()
      requires Valid()
      modifies cells
      ensures Valid() && State() == old(State()).Increase()
      ensures cells[cellPtr] == Wrap32(old(cells[cellPtr]) as int + 1)
      ensures forall k :: 0 <= k < N_CELLS && k != cellPtr ==> cells[k] == old(cells[k])
    {
      cells[cellPtr] := Increment(cells[cellPtr]);
    }

    /** `cells[cellPtr]--`, with 32-bit wrap-around. */
    method Decrease()
      requires Valid()
      modifies cells
      ensures Valid() && State() == old(State()).Decrease()
      ensures cells[cellPtr] == Wrap32(old(cells[cellPtr]) as int - 1)
      ensures forall k :: 0 <= k < N_CELLS && k != cellPtr ==> cells[k] == old(cells[k])
    {
      cells[cellPtr] := Decrement(cells[cellPtr]);
    }

    /** `findLoopBound`. Its search loop leaves at the first bracket of either
        kind: on the starting kind the `break` exits before the nesting counter
        is ever used. Running off the script throws, as `getCurrentCmd` would. */
    method FindLoopBound() returns (f: Option<Fault>)
      requires Valid() && 0 <= scriptPtr < script.Length
      modifies this`scriptPtr
      ensures Valid() && EffectOf(f, State()) == old(State()).FindLoopBound()
    {
      var c := script[scriptPtr];
      var inside: bool;
      if c == OPEN_LOOP {
        inside := SearchBound(1, OPEN_LOOP, CLOSE_LOOP);
      } else if c == CLOSE_LOOP {
        inside := SearchBound(-1, CLOSE_LOOP, OPEN_LOOP);
      } else {
        return Some(NotOnLoopBound);
      }
      f := if inside then None else Some(IndexOutOfBounds);
    }

    /** The search loop of `findLoopBound`, moving by `direction`: it stops on
        the first bracket, or reports that it ran off the script. */
    method SearchBound(direction: int, begin: JChar, finish: JChar) returns (inside: bool)
      requires Valid() && 0 <= scriptPtr < script.Length
      requires || (direction == 1 && begin == OPEN_LOOP && finish == CLOSE_LOOP)
               || (direction == -1 && begin == CLOSE_LOOP && finish == OPEN_LOOP)
      modifies this`scriptPtr
      ensures Valid() && scriptPtr == ScanFrom(script[..], old(scriptPtr) + direction, direction)
      ensures inside <==> 0 <= scriptPtr < script.Length
    {
      ghost var s := script[..];
      ghost var target := ScanFrom(s, scriptPtr + direction, direction);
      var counter := 0;
      var reached := false;
      while !reached
        invariant 0 <= scriptPtr < script.Length
        invariant counter == 0
        invariant reached ==> scriptPtr == target
        invariant !reached ==> ScanFrom(s, scriptPtr + direction, direction) == target
        decreases if direction == 1 then script.Length - scriptPtr else scriptPtr + 1
      {
        scriptPtr := scriptPtr + direction;
        if scriptPtr < 0 || scriptPtr >= script.Length {
          return false;
        }
        var currentCmd := script[scriptPtr];
        if currentCmd == begin {
          counter := counter + 1;
          break;
        } else if currentCmd == finish {
          if counter == 0 {
            reached := true;
          } else {
            counter := counter - 1;
          }
        }
      }
      return true;
    }

    /** `startloop`: when the cell is zero, move to the bound `findLoopBound` finds. */
    method Startloop() returns (f: Option<Fault>)
      requires Valid() && 0 <= scriptPtr < script.Length
      modifies this`scriptPtr
      ensures Valid() && EffectOf(f, State()) == old(State()).Startloop()
    {
      f := None;
      if cells[cellPtr] == 0 {
        f := FindLoopBound();
      }
    }

    /** `endloop`: when the cell is nonzero, move to the bound `findLoopBound` finds. */
    method Endloop() returns (f: Option<Fault>)
      requires Valid() && 0 <= scriptPtr < script.Length
      modifies this`scriptPtr
      ensures Valid() && EffectOf(f, State()) == old(State()).Endloop()
    {
      if cells[cellPtr] == 0 {
        return None;
      }
      f := FindLoopBound();
    }

    /** `getchar`: a read of -1 throws `NoInputException` and leaves the cell
        alone; otherwise the value read goes into the current cell. */
    method Getchar() returns (f: Option<Fault>)
      requires Valid()
      modifies cells, this`input
      ensures Valid() && EffectOf(f, State()) == old(State()).Getchar()
      ensures f == Some(NoInput) <==> old(input) == []
    {
      if input == [] {
        return Some(NoInput);
      }
      var n := input[0];
      input := input[1..];
      cells[cellPtr] := n;
      return None;
    }

    /** `putchar`: prints the current cell as a `char`. */
    method Putchar()
      requires Valid()
      modifies this`output
      ensures Valid() && State() == old(State()).Putchar()
      ensures output == old(output) + [ToChar(cells[cellPtr])]
    {
      output := output + [ToChar(cells[cellPtr])];
    }

    /** The `switch` of `interpret` on the current command. */
    method Dispatch() returns (f: Option<Fault>)
      requires Valid() && 0 <= scriptPtr < script.Length
      modifies this`scriptPtr, this`cellPtr, this`input, this`output, cells
      ensures Valid() && EffectOf(f, State()) == old(State()).Dispatch()
    {
      f := None;
      var cmd := script[scriptPtr];
      if cmd == INCREASE {
        Increase();
      } else if cmd == DECREASE {
        Decrease();
      } else if cmd == NEXT {
        NextCell();
      } else if cmd == PREVIOUS {
        PreviousCell();
      } else if cmd == OPEN_LOOP {
        f := Startloop();
      } else if cmd == CLOSE_LOOP {
        f := Endloop();
      } else if cmd == PRINT {
        // no `break`: falls through into GET
        Putchar();
        f := Getchar();
      } else if cmd == GET {
        f := Getchar();
      }
    }

    /** `interpret`, given a budget of `fuel` turns of its loop. An
        uninterpretable script stops it before any command runs; otherwise it
        runs until `scriptPtr` reaches the end of the script, a command throws,
        or the budget is spent. */
    method Interpret(fuel: nat) returns (r: Outcome)
      requires Valid()
      modifies this, cells
      ensures Valid() && Final(r, State()) == Execute(old(State()), fuel)
      ensures !Balanced(old(script[..])) ==> r == Failed(InvalidScript) && State() == old(State())
      ensures |input| <= |old(input)| && input == old(input)[|old(input)| - |input|..]
      ensures old(output) <= output
    {
      ghost var m0 := State();
      var ok := CheckScript();
      if !ok {
        return Failed(InvalidScript);
      }
      r := RunLoop(fuel);
      ExecuteStreams(m0, fuel);
    }

    /** The body of the `while` loop of `interpret`: run the current command
        and, unless it throws, move on to the next one. */
    method Turn(ghost rest: nat) returns (f: Option<Fault>)
      requires Valid() && 0 <= scriptPtr < script.Length
      modifies this`scriptPtr, this`cellPtr, this`input, this`output, cells
      ensures Valid()
      ensures f.None? ==> Semantics.Turn(old(State()), rest) == Run(State(), rest)
      ensures f.Some? ==> Semantics.Turn(old(State()), rest) == Final(Failed(f.value), State())
    {
      ghost var before := State();
      f := Dispatch();
      ghost var after := State();
      TurnDispatches(before, rest, EffectOf(f, after));
      if f.None? {
        scriptPtr := scriptPtr + 1;
        assert State() == after.(scriptPtr := after.scriptPtr + 1);
      }
    }

    /** The `while` loop of `interpret`. */
    method RunLoop(fuel: nat) returns (r: Outcome)
      requires Valid()
      modifies this, cells
      ensures Valid() && Final(r, State()) == Run(old(State()), fuel)
    {
      ghost var goal := Run(State(), fuel);
      var budget := fuel;
      while scriptPtr != script.Length
        invariant Valid() && goal == Run(State(), budget)
        decreases budget
      {
        if budget == 0 {
          return OutOfFuel;
        }
        if scriptPtr < 0 {
          return Failed(IndexOutOfBounds);
        }
        budget := budget - 1;
        var f := Turn(budget);
        if f.Some? {
          return Failed(f.value);
        }
      }
      return Halted;
    }
  }
}

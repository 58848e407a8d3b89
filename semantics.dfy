/** The behaviour of `Engine1` as functions on a value that holds all of its
    state. The class `Interpreter.Engine1` is proved against these functions:
    each of its command methods changes its fields exactly as the `Machine`
    function of the same name changes a `Machine`, its `Turn` (the body of the
    loop of `interpret`) follows `Turn`, its `RunLoop` follows `Run` and its
    `Interpret` follows `Execute`. */
module Semantics {
  import opened JavaTypes
  import opened Tape
  import opened Script
  import opened Wrappers

  /** The ways a run can end abnormally. */
  datatype Fault =
    | InvalidScript     // `checkScript` failed: `System.exit(5)`
    | NoInput           // `NoInputException`: a read found the input exhausted
    | IndexOutOfBounds  // `script[scriptPtr]` with `scriptPtr` outside the script
    | NotOnLoopBound    // `findLoopBound` called off a bracket (`RuntimeException`)

  /** How a bounded run ends: the script pointer reached the end, a fault was
      thrown, or the step budget ran out first. */
  datatype Outcome = Halted | Failed(fault: Fault) | OutOfFuel

  /** The state of an engine. `input` is what the input stream's `read()` still
      yields before it returns -1; `output` is what was printed, one `(char)`
      per `putchar`. */
  datatype Machine = Machine(
    script: seq<JChar>,
    scriptPtr: int,
    cells: seq<Int32>,
    cellPtr: int,
    input: seq<JChar>,
    output: seq<JChar>)
  {
    /** `scriptPtr` is -1 only after a backward scan ran off the script. */
    predicate Valid() {
      |cells| == N_CELLS && 0 <= cellPtr < N_CELLS && -1 <= scriptPtr <= |script|
    }

    function CurrentCell(): Int32
      requires Valid()
    {
      cells[cellPtr]
    }

    function NextCell(): (m: Machine)
      requires Valid()
      ensures m.Valid() && m.cellPtr == (cellPtr + 1) % N_CELLS
      ensures m == this.(cellPtr := m.cellPtr)
    {
      this.(cellPtr := NextIndex(cellPtr))
    }

    function PreviousCell(): (m: Machine)
      requires Valid()
      ensures m.Valid() && m.cellPtr == (cellPtr - 1) % N_CELLS
      ensures m == this.(cellPtr := m.cellPtr)
    {
      this.(cellPtr := PreviousIndex(cellPtr))
    }

    function Increase(): (m: Machine)
      requires Valid()
      ensures m.Valid() && m == this.(cells := m.cells)
      ensures m.cells[cellPtr] == Wrap32(cells[cellPtr] as int + 1)
      ensures forall k :: 0 <= k < N_CELLS && k != cellPtr ==> m.cells[k] == cells[k]
    {
      this.(cells := cells[cellPtr := Increment(cells[cellPtr])])
    }

    function Decrease(): (m: Machine)
      requires Valid()
      ensures m.Valid() && m == this.(cells := m.cells)
      ensures m.cells[cellPtr] == Wrap32(cells[cellPtr] as int - 1)
      ensures forall k :: 0 <= k < N_CELLS && k != cellPtr ==> m.cells[k] == cells[k]
    {
      this.(cells := cells[cellPtr := Decrement(cells[cellPtr])])
    }

    /** `findLoopBound`: from `[` scan forwards, from `]` backwards, and stop at
        the first bracket of either kind; off the script this indexes out of
        bounds, leaving `scriptPtr` at the first index outside. */
    function FindLoopBound(): (e: Effect)
      requires Valid() && 0 <= scriptPtr < |script|
      ensures e.machine.Valid() && e.machine == this.(scriptPtr := e.machine.scriptPtr)
      ensures !IsBracket(script[scriptPtr]) <==> e == Thrown(NotOnLoopBound, this)
      ensures script[scriptPtr] == OPEN_LOOP ==>
                scriptPtr < e.machine.scriptPtr && BracketFree(script, scriptPtr + 1, e.machine.scriptPtr)
      ensures script[scriptPtr] == CLOSE_LOOP ==>
                e.machine.scriptPtr < scriptPtr && BracketFree(script, e.machine.scriptPtr + 1, scriptPtr)
      ensures IsBracket(script[scriptPtr]) ==>
                (e.Done? <==> 0 <= e.machine.scriptPtr < |script|)
                && (e.Done? ==> IsBracket(script[e.machine.scriptPtr]))
                && (e.Thrown? ==> e.fault == IndexOutOfBounds)
    {
      var c := script[scriptPtr];
      if c == OPEN_LOOP || c == CLOSE_LOOP then
        var dir := if c == OPEN_LOOP then 1 else -1;
        var j := ScanFrom(script, scriptPtr + dir, dir);
        if 0 <= j < |script| then Done(this.(scriptPtr := j))
        else Thrown(IndexOutOfBounds, this.(scriptPtr := j))
      else
        Thrown(NotOnLoopBound, this)
    }

    /** `startloop`: search for the other bound only when the cell is zero. */
    function Startloop(): (e: Effect)
      requires Valid() && 0 <= scriptPtr < |script|
      ensures e.machine.Valid()
      ensures CurrentCell() != 0 ==> e == Done(this)
      ensures CurrentCell() == 0 ==> e == FindLoopBound()
    {
      if CurrentCell() == 0 then FindLoopBound() else Done(this)
    }

    /** `endloop`: search for the other bound only when the cell is nonzero. */
    function Endloop(): (e: Effect)
      requires Valid() && 0 <= scriptPtr < |script|
      ensures e.machine.Valid()
      ensures CurrentCell() == 0 ==> e == Done(this)
      ensures CurrentCell() != 0 ==> e == FindLoopBound()
    {
      if CurrentCell() == 0 then Done(this) else FindLoopBound()
    }

    /** `getchar`: a read of -1 throws and leaves the cell alone. */
    function Getchar(): (e: Effect)
      requires Valid()
      ensures e.machine.Valid()
      ensures e.Thrown? <==> input == []
      ensures e.Thrown? ==> e == Thrown(NoInput, this)
      ensures e.Done? ==>
                && e.machine == this.(cells := e.machine.cells, input := e.machine.input)
                && e.machine.cells == cells[cellPtr := input[0]]
                && input == [input[0]] + e.machine.input
    {
      if input == [] then Thrown(NoInput, this)
      else Done(this.(cells := cells[cellPtr := input[0]], input := input[1..]))
    }

    /** `putchar`: prints the cell as a `char`. */
    function Putchar(): (m: Machine)
      requires Valid()
      ensures m.Valid() && m == this.(output := m.output)
      ensures m.output == output + [ToChar(CurrentCell())]
    {
      this.(output := output + [ToChar(CurrentCell())])
    }

    /** The `switch` of `interpret`. `PRINT` has no `break`, so it falls
        through into `GET`. Other characters do nothing. */
    function Dispatch(): (e: Effect)
      requires Valid() && 0 <= scriptPtr < |script|
      ensures e.machine.Valid() && e.machine.script == script
      ensures !IsBracket(script[scriptPtr]) ==> e.machine.scriptPtr == scriptPtr
      ensures script[scriptPtr] !in COMMANDS ==> e == Done(this)
      ensures e.Thrown? ==> e.fault == NoInput || e.fault == IndexOutOfBounds
    {
      var c := script[scriptPtr];
      if c == INCREASE then Done(Increase())
      else if c == DECREASE then Done(Decrease())
      else if c == NEXT then Done(NextCell())
      else if c == PREVIOUS then Done(PreviousCell())
      else if c == OPEN_LOOP then Startloop()
      else if c == CLOSE_LOOP then Endloop()
      else if c == PRINT then Putchar().Getchar()
      else if c == GET then Getchar()
      else Done(this)
    }

    /** One turn of the loop of `interpret`: fetch the command, dispatch it,
        then `scriptPtr++` unless it threw. */
    function Step(): (e: Effect)
      requires Valid() && scriptPtr != |script|
      ensures e.machine.Valid() && e.machine.script == script
    {
      if scriptPtr < 0 then Thrown(IndexOutOfBounds, this)
      else
        match Dispatch()
        case Done(m) => Done(m.(scriptPtr := m.scriptPtr + 1))
        case Thrown(f, m) => Thrown(f, m)
    }
  }

  /** `after` has read a prefix of what `before` had left to read. */
  ghost predicate Consumes(before: Machine, after: Machine) {
    |after.input| <= |before.input| && after.input == before.input[|before.input| - |after.input|..]
  }

  /** `after` has printed what `before` had printed, and maybe more. */
  ghost predicate Appends(before: Machine, after: Machine) {
    before.output <= after.output
  }

  /** The result of a method that may throw: the state it leaves either way. */
  datatype Effect = Done(machine: Machine) | Thrown(fault: Fault, machine: Machine)

  function EffectOf(f: Option<Fault>, m: Machine): Effect {
    if f.None? then Done(m) else Thrown(f.value, m)
  }

  /** The state right after `new Engine1(script, in, out)`. */
  function Initial(script: seq<JChar>, input: seq<JChar>): (m: Machine)
    ensures m.Valid() && m.script == script && m.input == input
    ensures m.scriptPtr == 0 && m.cellPtr == 0 && m.output == []
    ensures forall k :: 0 <= k < N_CELLS ==> m.cells[k] == 0
  {
    Machine(script, 0, seq(N_CELLS, _ => 0), 0, input, [])
  }

  /** How a run ended and the state it left. */
  datatype Final = Final(outcome: Outcome, machine: Machine)

  /** The loop of `interpret`, run for at most `fuel` turns. */
  function Run(m: Machine, fuel: nat): (r: Final)
    requires m.Valid()
    ensures r.machine.Valid() && r.machine.script == m.script
    decreases fuel, 1
  {
    if m.scriptPtr == |m.script| then Final(Halted, m)
    else if fuel == 0 then Final(OutOfFuel, m)
    else Turn(m, fuel - 1)
  }

  /** One turn of the loop of `interpret`, then at most `fuel` more. */
  function Turn(m: Machine, fuel: nat): (r: Final)
    requires m.Valid() && m.scriptPtr != |m.script|
    ensures r.machine.Valid() && r.machine.script == m.script
    decreases fuel, 2
  {
    match m.Step()
    case Done(m') => Run(m', fuel)
    case Thrown(f, m') => Final(Failed(f), m')
  }

  /** `interpret`: check the script, then run it. */
  function Execute(m: Machine, fuel: nat): (r: Final)
    requires m.Valid()
    ensures r.machine.Valid() && r.machine.script == m.script
    ensures r.outcome == Failed(InvalidScript) <==> !Balanced(m.script)
    ensures !Balanced(m.script) ==> r.machine == m
  {
    if !Balanced(m.script) then Final(Failed(InvalidScript), m)
    else RunOutcomes(m, fuel); Run(m, fuel)
  }

  // ---------------------------------------------------------------------
  // Properties of single steps

  /** A step keeps the script and the tape's shape, only consumes input from the
      front, and only appends output. */
  lemma StepStreams(m: Machine)
    requires m.Valid() && m.scriptPtr != |m.script|
    ensures Consumes(m, m.Step().machine) && Appends(m, m.Step().machine)
  {
    if m.scriptPtr >= 0 {
      var c := m.script[m.scriptPtr];
      var d := m.Dispatch();
      if c == PRINT {
        var p := m.Putchar();
        assert d == p.Getchar();
        assert Consumes(p, d.machine) && Appends(p, d.machine);
      } else if c == GET {
        assert Consumes(m, d.machine);
      } else {
        assert d.machine.input == m.input && d.machine.output == m.output;
      }
    }
  }

  /** A non-command character only advances the script pointer. */
  lemma StepSkipsNonCommands(m: Machine)
    requires m.Valid() && 0 <= m.scriptPtr < |m.script|
    requires m.script[m.scriptPtr] !in COMMANDS
    ensures m.Step() == Done(m.(scriptPtr := m.scriptPtr + 1))
  {
  }

  /** `+` and `-` change only the current cell, by one with 32-bit wrap-around. */
  lemma StepChangesOneCell(m: Machine)
    requires m.Valid() && 0 <= m.scriptPtr < |m.script|
    requires m.script[m.scriptPtr] == INCREASE || m.script[m.scriptPtr] == DECREASE
    ensures var m' := m.Step().machine;
            && m.Step().Done?
            && m'.cellPtr == m.cellPtr && m'.scriptPtr == m.scriptPtr + 1
            && m'.input == m.input && m'.output == m.output
            && (forall k :: 0 <= k < N_CELLS && k != m.cellPtr ==> m'.cells[k] == m.cells[k])
            && m'.cells[m.cellPtr] == Wrap32(m.cells[m.cellPtr] as int + (if m.script[m.scriptPtr] == INCREASE then 1 else -1))
  {
  }

  /** `.` prints the cell and then, falling through, reads into it: with no
      input left it throws after printing. */
  lemma StepPrintFallsThrough(m: Machine)
    requires m.Valid() && 0 <= m.scriptPtr < |m.script| && m.script[m.scriptPtr] == PRINT
    ensures m.Step().machine.output == m.output + [ToChar(m.CurrentCell())]
    ensures m.input == [] ==> m.Step() == Thrown(NoInput, m.(output := m.output + [ToChar(m.CurrentCell())]))
    ensures m.input != [] ==>
              m.Step().Done? && m.Step().machine.input == m.input[1..] && m.Step().machine.CurrentCell() == m.input[0]
  {
  }

  /** `,` with no input left throws `NoInputException` and changes nothing. */
  lemma StepGetWithoutInput(m: Machine)
    requires m.Valid() && 0 <= m.scriptPtr < |m.script| && m.script[m.scriptPtr] == GET
    requires m.input == []
    ensures m.Step() == Thrown(NoInput, m)
  {
  }

  /** `[`: on a nonzero cell enter the loop; on zero resume just past the
      nearest bracket after it, whichever kind it is; with no bracket after it,
      fail with `scriptPtr` at the end of the script. */
  lemma StepOpenLoop(m: Machine, j: int)
    requires m.Valid() && 0 <= m.scriptPtr < |m.script| && m.script[m.scriptPtr] == OPEN_LOOP
    ensures m.CurrentCell() != 0 ==> m.Step() == Done(m.(scriptPtr := m.scriptPtr + 1))
    ensures (m.CurrentCell() == 0 && m.scriptPtr < j < |m.script| && IsBracket(m.script[j])
             && BracketFree(m.script, m.scriptPtr + 1, j)) ==>
              m.Step() == Done(m.(scriptPtr := j + 1))
    ensures (m.CurrentCell() == 0 && BracketFree(m.script, m.scriptPtr + 1, |m.script|)) ==>
              m.Step() == Thrown(IndexOutOfBounds, m.(scriptPtr := |m.script|))
  {
    if m.CurrentCell() == 0 && m.scriptPtr < j < |m.script| && IsBracket(m.script[j])
       && BracketFree(m.script, m.scriptPtr + 1, j) {
      ScanReaches(m.script, m.scriptPtr + 1, 1, j);
    }
  }

  /** `]`: on a zero cell leave the loop; on nonzero resume at the command just
      after the nearest bracket before it, whichever kind it is; with no bracket
      before it, fail with `scriptPtr` at -1. */
  lemma StepCloseLoop(m: Machine, j: int)
    requires m.Valid() && 0 <= m.scriptPtr < |m.script| && m.script[m.scriptPtr] == CLOSE_LOOP
    ensures m.CurrentCell() == 0 ==> m.Step() == Done(m.(scriptPtr := m.scriptPtr + 1))
    ensures (m.CurrentCell() != 0 && 0 <= j < m.scriptPtr && IsBracket(m.script[j])
             && BracketFree(m.script, j + 1, m.scriptPtr)) ==>
              m.Step() == Done(m.(scriptPtr := j + 1))
    ensures (m.CurrentCell() != 0 && BracketFree(m.script, 0, m.scriptPtr)) ==>
              m.Step() == Thrown(IndexOutOfBounds, m.(scriptPtr := -1))
  {
    if m.CurrentCell() != 0 && 0 <= j < m.scriptPtr && IsBracket(m.script[j])
       && BracketFree(m.script, j + 1, m.scriptPtr) {
      ScanReaches(m.script, m.scriptPtr - 1, -1, j);
    }
  }

  /** When no loop of the same kind is nested between a bracket and the bound
      the scan meets, a jump lands just past the matching bound. */
  lemma StepJumpsToMatch(m: Machine)
    requires m.Valid() && 0 <= m.scriptPtr < |m.script|
    requires var c := m.script[m.scriptPtr];
             (c == OPEN_LOOP && m.CurrentCell() == 0) || (c == CLOSE_LOOP && m.CurrentCell() != 0)
    ensures var dir := if m.script[m.scriptPtr] == OPEN_LOOP then 1 else -1;
            var j := ScanFrom(m.script, m.scriptPtr + dir, dir);
            0 <= j < |m.script| && m.script[j] == Finish(dir) ==>
              m.Step() == Done(m.(scriptPtr := MatchFrom(m.script, m.scriptPtr + dir, dir, 0) + 1))
  {
    var dir := if m.script[m.scriptPtr] == OPEN_LOOP then 1 else -1;
    var j := ScanFrom(m.script, m.scriptPtr + dir, dir);
    ScanMatchesUnlessNested(m.script, m.scriptPtr + dir, dir);
    if 0 <= j < |m.script| {
      if dir == 1 {
        StepOpenLoop(m, j);
      } else {
        StepCloseLoop(m, j);
      }
    }
  }

  // ---------------------------------------------------------------------
  // Properties of runs

  /** A run keeps the machine valid and its script, consumes input from the
      front and only appends output. */
  lemma {:induction false} RunStreams(m: Machine, fuel: nat)
    requires m.Valid()
    ensures var m' := Run(m, fuel).machine;
            m'.Valid() && m'.script == m.script && Consumes(m, m') && Appends(m, m')
    decreases fuel
  {
    if m.scriptPtr != |m.script| && fuel > 0 {
      StepStreams(m);
      if m.Step().Done? {
        RunStreams(m.Step().machine, fuel - 1);
      }
    }
  }

  /** One turn of a run, in terms of the effect `d` of dispatching the
      current command: go on from the next command, or stop with the fault. */
  lemma TurnDispatches(m: Machine, fuel: nat, d: Effect)
    requires m.Valid() && 0 <= m.scriptPtr < |m.script|
    requires d == m.Dispatch()
    ensures d.Done? ==> Turn(m, fuel) == Run(d.machine.(scriptPtr := d.machine.scriptPtr + 1), fuel)
    ensures d.Thrown? ==> Turn(m, fuel) == Final(Failed(d.fault), d.machine)
  {
  }

  /** A run reports `Halted` only at the end of the script, and always when it
      starts there; it runs out of fuel only before the end, and never reports
      `InvalidScript`. */
  lemma {:induction false} RunOutcomes(m: Machine, fuel: nat)
    requires m.Valid()
    ensures var f := Run(m, fuel);
            && (f.outcome == Halted ==> f.machine.scriptPtr == |m.script|)
            && (f.outcome == OutOfFuel ==> f.machine.scriptPtr != |m.script|)
            && f.outcome != Failed(InvalidScript)
    ensures m.scriptPtr == |m.script| ==> Run(m, fuel) == Final(Halted, m)
    decreases fuel
  {
    if m.scriptPtr != |m.script| && fuel > 0 && m.Step().Done? {
      RunOutcomes(m.Step().machine, fuel - 1);
    }
  }

  /** More fuel does not change a run that already ended within its budget. */
  lemma {:induction false} RunMoreFuel(m: Machine, fuel: nat, more: nat)
    requires m.Valid() && fuel <= more
    requires Run(m, fuel).outcome != OutOfFuel
    ensures Run(m, more) == Run(m, fuel)
    decreases fuel
  {
    if m.scriptPtr != |m.script| && m.Step().Done? {
      RunMoreFuel(m.Step().machine, fuel - 1, more - 1);
    }
  }

  /** The same for `interpret` as a whole. */
  lemma ExecuteStreams(m: Machine, fuel: nat)
    requires m.Valid()
    ensures var m' := Execute(m, fuel).machine;
            m'.Valid() && m'.script == m.script && Consumes(m, m') && Appends(m, m')
  {
    if Balanced(m.script) {
      RunStreams(m, fuel);
    }
  }

  // ---------------------------------------------------------------------
  // Concrete runs

  /** `+.` with no input prints the value 1 and then, falling through into the
      read, throws `NoInputException`: it does not halt normally. */
  lemma IncrementPrintWithoutInput()
    ensures var f := Execute(Initial([INCREASE, PRINT], []), 2);
            f.outcome == Failed(NoInput) && f.machine.output == [1] && f.machine.cells[0] == 1
  {
    var m0 := Initial([INCREASE, PRINT], []);
    assert m0.script[..1] == [INCREASE] && [INCREASE][..0] == [];
    assert Count([INCREASE], OPEN_LOOP) == 0;
    assert Count([INCREASE], CLOSE_LOOP) == 0;
    assert Balanced(m0.script);
    var m1 := m0.Step().machine;
    assert m0.Step() == Done(m1);
    assert m1.cells[0] == 1 && m1.scriptPtr == 1;
  }

  /** `,.` with input "A" reads 'A', prints it, and throws on the second read. */
  lemma EchoOneCharacter()
    ensures var f := Execute(Initial([GET, PRINT], ['A' as int]), 2);
            f.outcome == Failed(NoInput) && f.machine.output == ['A' as int]
  {
    var m0 := Initial([GET, PRINT], ['A' as int]);
    assert m0.script[..1] == [GET] && [GET][..0] == [];
    assert Count([GET], OPEN_LOOP) == 0;
    assert Count([GET], CLOSE_LOOP) == 0;
    assert Balanced(m0.script);
    var m1 := m0.Step().machine;
    assert m0.Step() == Done(m1);
    assert m1.cells[0] == 'A' as int && m1.scriptPtr == 1 && m1.input == [];
  }

  /** `+[-]` sets the cell to 1, enters the loop, decrements to 0, leaves the
      loop and halts with no output. */
  lemma CountDownLoop()
    ensures var f := Execute(Initial([INCREASE, OPEN_LOOP, DECREASE, CLOSE_LOOP], []), 4);
            f.outcome == Halted && f.machine.output == [] && f.machine.cells[0] == 0
  {
    var s := [INCREASE, OPEN_LOOP, DECREASE, CLOSE_LOOP];
    var m0 := Initial(s, []);
    assert s[..3] == [INCREASE, OPEN_LOOP, DECREASE];
    assert s[..3][..2] == [INCREASE, OPEN_LOOP];
    assert s[..3][..2][..1] == [INCREASE];
    assert s[..3][..2][..1][..0] == [];
    assert Count([INCREASE], OPEN_LOOP) == 0;
    assert Count([INCREASE], CLOSE_LOOP) == 0;
    assert Count([INCREASE, OPEN_LOOP], OPEN_LOOP) == 1;
    assert Count([INCREASE, OPEN_LOOP], CLOSE_LOOP) == 0;
    assert Count(s[..3], OPEN_LOOP) == 1;
    assert Count(s[..3], CLOSE_LOOP) == 0;
    assert Count(s, OPEN_LOOP) == 1;
    assert Count(s, CLOSE_LOOP) == 1;
    var m1 := m0.Step().machine;
    assert m0.Step() == Done(m1) && m1.cells[0] == 1 && m1.scriptPtr == 1;
    var m2 := m1.Step().machine;
    assert m1.Step() == Done(m2) && m2.cells[0] == 1 && m2.scriptPtr == 2;
    var m3 := m2.Step().machine;
    assert m2.Step() == Done(m3) && m3.cells[0] == 0 && m3.scriptPtr == 3;
    var m4 := m3.Step().machine;
    assert m3.Step() == Done(m4) && m4.cells[0] == 0 && m4.scriptPtr == 4;
    assert Run(m4, 0) == Final(Halted, m4);
  }

  /** `][` passes the bracket count; the `]` on a zero cell is skipped, and the
      `[` on a zero cell scans off the end of the script. */
  lemma MisnestedRunsOffTheEnd()
    ensures var f := Execute(Initial([CLOSE_LOOP, OPEN_LOOP], []), 2);
            f.outcome == Failed(IndexOutOfBounds) && f.machine.scriptPtr == 2
  {
    BalancedAcceptsMisnested();
    var m0 := Initial([CLOSE_LOOP, OPEN_LOOP], []);
    var m1 := m0.Step().machine;
    assert m0.Step() == Done(m1) && m1.scriptPtr == 1;
    assert ScanFrom(m1.script, 2, 1) == 2;
  }

  /** `[` alone is rejected before anything runs. */
  lemma LoneOpenRejected()
    ensures Execute(Initial([OPEN_LOOP], []), 1) == Final(Failed(InvalidScript), Initial([OPEN_LOOP], []))
  {
    assert [OPEN_LOOP][..0] == [];
    assert Count([OPEN_LOOP], OPEN_LOOP) == 1 && Count([OPEN_LOOP], CLOSE_LOOP) == 0;
  }
}

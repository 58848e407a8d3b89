/** `StringOutputEngine`: an engine whose output is a string holding the
    decimal text of every printed cell, and whose input is either a string,
    consumed from the front, or an input stream. Only the fields and methods
    this class declares are modelled; its superclass's cells and cell pointer
    are taken to be those of `Engine1`. */
module Engine {
  import opened JavaTypes
  import opened Wrappers
  import opened Tape
  import opened Semantics

  class StringOutputEngine {
    // the script handed to the superclass
    const script: seq<JChar>
    // the superclass's cells and cell pointer
    const cells: array<Int32>
    var cellPtr: int
    // `None` for a `null` stream; otherwise what its `read()` still yields
    var input: Option<seq<JChar>>
    // the characters still to be read when there is no stream
    var strInput: seq<JChar>
    var output: seq<JChar>

    ghost predicate Valid()
      reads this
    {
      cells.Length == N_CELLS && 0 <= cellPtr < N_CELLS
    }

    /** `new StringOutputEngine(script, InputStream)`: reads from the stream. */
    constructor FromStream(s: seq<JChar>, stream: seq<JChar>)
      ensures Valid() && fresh(cells)
      ensures script == s && input == Some(stream) && output == []
      ensures cellPtr == 0 && forall k :: 0 <= k < N_CELLS ==> cells[k] == 0
    {
      script := s;
      cells := new Int32[N_CELLS](_ => 0);
      cellPtr := 0;
      input := Some(stream);
      strInput := [];
      output := [];
    }

    /** `new StringOutputEngine(script, String)`: leaves the stream `null` and
        reads from the string. */
    constructor FromString(s: seq<JChar>, str: seq<JChar>)
      ensures Valid() && fresh(cells)
      ensures script == s && input == None && strInput == str && output == []
      ensures cellPtr == 0 && forall k :: 0 <= k < N_CELLS ==> cells[k] == 0
    {
      script := s;
      cells := new Int32[N_CELLS](_ => 0);
      cellPtr := 0;
      input := None;
      strInput := str;
      output := [];
    }

    /** `getchar`: with a `null` stream, takes the first character of
        `strInput` into the current cell and drops it from `strInput`; with a
        stream, reads its next value. Nothing left to read throws
        `NoInputException` and changes nothing. */
    method Getchar() returns (f: Option<Fault>)
      requires Valid()
      modifies cells, this`strInput, this`input
      ensures Valid()
      ensures old(input).None? ==> input == None
      ensures old(input).None? && old(strInput) == [] ==>
                f == Some(NoInput) && strInput == old(strInput) && cells[..] == old(cells[..])
      ensures old(input).None? && old(strInput) != [] ==>
                && f == None
                && strInput == old(strInput)[1..]
                && cells[..] == old(cells[..])[cellPtr := old(strInput)[0]]
      ensures old(input).Some? && old(input).value == [] ==>
                && f == Some(NoInput)
                && input == old(input) && strInput == old(strInput)
                && cells[..] == old(cells[..])
      ensures old(input).Some? && old(input).value != [] ==>
                && f == None
                && input == Some(old(input).value[1..])
                && strInput == old(strInput)
                && cells[..] == old(cells[..])[cellPtr := old(input).value[0]]
    {
      if input == None {
        // no stream: take the front of the string
        if strInput == [] {
          return Some(NoInput);
        }
        var next := strInput[0];
        strInput := strInput[1..];
        cells[cellPtr] := next;
      } else {
        // a stream: take its next value
        if input.value == [] {
          return Some(NoInput);
        }
        var read := input.value[0];
        input := Some(input.value[1..]);
        cells[cellPtr] := read;
      }
      return None;
    }

    /** `putchar`: appends `String.valueOf` of the current cell, its decimal text. */
    method Putchar()
      requires Valid()
      modifies this`output
      ensures output == old(output) + Decimal(cells[cellPtr])
    {
      output := output + Decimal(cells[cellPtr]);
    }

    /** `interpret`: returns `output`. The superclass's `_interpret`, which runs
        the script before that, is not part of this model. */
    method Interpret() returns (out: seq<JChar>)
      ensures out == output
    {
      out := output;
    }
  }
}

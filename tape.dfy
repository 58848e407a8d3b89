/** The tape of `Engine1`: `N_CELLS` cells and a cell pointer that wraps at
    both ends. */
module Tape {

  /** Number of cells available. */
  const N_CELLS: nat := 20

  /** `nextCell`: the last cell is followed by the first. */
  function NextIndex(i: int): (r: int)
    requires 0 <= i < N_CELLS
    ensures 0 <= r < N_CELLS
    ensures r == (i + 1) % N_CELLS
  {
    if i == N_CELLS - 1 then 0 else i + 1
  }

  /** `previousCell`: the first cell is preceded by the last. */
  function PreviousIndex(i: int): (r: int)
    requires 0 <= i < N_CELLS
    ensures 0 <= r < N_CELLS
    ensures r == (i - 1) % N_CELLS
  {
    if i == 0 then N_CELLS - 1 else i - 1
  }

  lemma NextPreviousInverse(i: int)
    requires 0 <= i < N_CELLS
    ensures PreviousIndex(NextIndex(i)) == i
    ensures NextIndex(PreviousIndex(i)) == i
  {
  }

  /** The cell pointer after `k` consecutive `nextCell` calls from `i`. */
  function Advance(i: int, k: nat): (r: int)
    requires 0 <= i < N_CELLS
    ensures 0 <= r < N_CELLS
    decreases k
  {
    if k == 0 then i else NextIndex(Advance(i, k - 1))
  }

  /** The cell pointer after `k` consecutive `previousCell` calls from `i`. */
  function Retreat(i: int, k: nat): (r: int)
    requires 0 <= i < N_CELLS
    ensures 0 <= r < N_CELLS
    decreases k
  {
    if k == 0 then i else PreviousIndex(Retreat(i, k - 1))
  }

  /** `x % N_CELLS` is the `r` of any way of writing `x` as `q * N_CELLS + r`
      with `0 <= r < N_CELLS`. */
  lemma ModUnique(x: int, q: int, r: int)
    requires x == q * N_CELLS + r && 0 <= r < N_CELLS
    ensures x % N_CELLS == r
  {
    var d, m := x / N_CELLS, x % N_CELLS;
    assert x == d * N_CELLS + m;
    assert (q - d) * N_CELLS == m - r;
  }

  /** `k` moves right from `i` pass the first cell `q` times on the way. */
  lemma {:induction false} AdvanceTurns(i: int, k: nat) returns (q: int)
    requires 0 <= i < N_CELLS
    ensures i + k == q * N_CELLS + Advance(i, k)
    decreases k
  {
    if k == 0 {
      q := 0;
    } else {
      var q0 := AdvanceTurns(i, k - 1);
      q := if Advance(i, k - 1) == N_CELLS - 1 then q0 + 1 else q0;
    }
  }

  /** `k` moves left from `i` pass the last cell `-q` times on the way. */
  lemma {:induction false} RetreatTurns(i: int, k: nat) returns (q: int)
    requires 0 <= i < N_CELLS
    ensures i - k == q * N_CELLS + Retreat(i, k)
    decreases k
  {
    if k == 0 {
      q := 0;
    } else {
      var q0 := RetreatTurns(i, k - 1);
      q := if Retreat(i, k - 1) == 0 then q0 - 1 else q0;
    }
  }

  lemma AdvanceIsShift(i: int, k: nat)
    requires 0 <= i < N_CELLS
    ensures Advance(i, k) == (i + k) % N_CELLS
  {
    var q := AdvanceTurns(i, k);
    ModUnique(i + k, q, Advance(i, k));
  }

  lemma RetreatIsShift(i: int, k: nat)
    requires 0 <= i < N_CELLS
    ensures Retreat(i, k) == (i - k) % N_CELLS
  {
    var q := RetreatTurns(i, k);
    ModUnique(i - k, q, Retreat(i, k));
  }

  lemma AddTurns(i: int, k: nat)
    requires 0 <= i < N_CELLS
    requires k % N_CELLS == 0
    ensures (i + k) % N_CELLS == i
    ensures (i - k) % N_CELLS == i
  {
    var q := k / N_CELLS;
    assert k == q * N_CELLS;
  }

  /** A whole number of turns (`k` a multiple of `N_CELLS`) of moves in one
      direction brings the cell pointer back to where it was. */
  lemma FullTurns(i: int, k: nat)
    requires 0 <= i < N_CELLS
    requires k % N_CELLS == 0
    ensures Advance(i, k) == i
    ensures Retreat(i, k) == i
  {
    AdvanceIsShift(i, k);
    RetreatIsShift(i, k);
    AddTurns(i, k);
  }
}

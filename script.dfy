/** The script of `Engine1`: its eight commands, the bracket-count check done
    by `checkScript`, the bracket scan done by `findLoopBound`, and, as an
    independent reference, the depth-counting match of a loop bound. */
module Script {
  import opened JavaTypes

  const INCREASE: JChar := '+' as int
  const DECREASE: JChar := '-' as int
  const NEXT: JChar := '>' as int
  const PREVIOUS: JChar := '<' as int
  const OPEN_LOOP: JChar := '[' as int
  const CLOSE_LOOP: JChar := ']' as int
  const PRINT: JChar := '.' as int
  const GET: JChar := ',' as int

  /** The eight command characters. */
  const COMMANDS: set<JChar> := {INCREASE, DECREASE, NEXT, PREVIOUS, OPEN_LOOP, CLOSE_LOOP, PRINT, GET}

  predicate IsBracket(c: JChar) {
    c == OPEN_LOOP || c == CLOSE_LOOP
  }

  /** Number of occurrences of `c` in `s`. */
  function Count(s: seq<JChar>, c: JChar): (n: nat)
    ensures n <= |s| && (n == 0 <==> c !in s)
  {
    assert s != [] ==> s == s[..|s| - 1] + [s[|s| - 1]];
    if s == [] then 0 else Count(s[..|s| - 1], c) + (if s[|s| - 1] == c then 1 else 0)
  }

  /** Counting over one more character. */
  lemma CountSnoc(s: seq<JChar>, x: JChar, c: JChar)
    ensures Count(s + [x], c) == Count(s, c) + (if x == c then 1 else 0)
  {
    assert (s + [x])[..|s + [x]| - 1] == s;
  }

  /** What `checkScript` accepts: as many `[` as `]`, in any order. */
  predicate Balanced(s: seq<JChar>): (b: bool)
    ensures (forall k :: 0 <= k < |s| ==> !IsBracket(s[k])) ==> b
  {
    Count(s, OPEN_LOOP) == Count(s, CLOSE_LOOP)
  }

  /** Open loops minus closed loops in `s`. */
  function Depth(s: seq<JChar>): int {
    Count(s, OPEN_LOOP) - Count(s, CLOSE_LOOP)
  }

  /** Properly nested brackets: no prefix closes more loops than it opens, and
      the whole script closes every loop it opens. */
  predicate WellNested(s: seq<JChar>) {
    Depth(s) == 0 && forall k :: 0 <= k <= |s| ==> Depth(s[..k]) >= 0
  }

  lemma WellNestedIsBalanced(s: seq<JChar>)
    ensures WellNested(s) ==> Balanced(s)
  {
  }

  /** The count check accepts `][`, which closes a loop before opening one. */
  lemma BalancedAcceptsMisnested()
    ensures Balanced([CLOSE_LOOP, OPEN_LOOP])
    ensures !WellNested([CLOSE_LOOP, OPEN_LOOP])
  {
    var s := [CLOSE_LOOP, OPEN_LOOP];
    var t := s[..1];
    assert t == [CLOSE_LOOP] && t[..0] == [];
    assert Count(t, OPEN_LOOP) == 0 && Count(t, CLOSE_LOOP) == 1;
    assert Depth(t) == -1;
  }

  /** No bracket among `s[lo..hi]`. */
  ghost predicate BracketFree(s: seq<JChar>, lo: int, hi: int)
    requires 0 <= lo <= hi <= |s|
  {
    forall k :: lo <= k < hi ==> !IsBracket(s[k])
  }

  /** The range of start positions a scan in direction `dir` may begin at. */
  predicate ScanStart(s: seq<JChar>, i: int, dir: int) {
    (dir == 1 && 0 <= i <= |s|) || (dir == -1 && -1 <= i < |s|)
  }

  /** The search loop of `findLoopBound`, starting at index `i` and moving by
      `dir`: it stops at the first bracket of either kind, or at the first
      index outside the script (`|s|` forwards, `-1` backwards). */
  function ScanFrom(s: seq<JChar>, i: int, dir: int): (j: int)
    requires ScanStart(s, i, dir)
    ensures -1 <= j <= |s|
    ensures 0 <= j < |s| ==> IsBracket(s[j])
    ensures dir == 1 ==> i <= j && BracketFree(s, i, j)
    ensures dir == -1 ==> j <= i && BracketFree(s, j + 1, i + 1)
    decreases if dir == 1 then |s| - i else i + 1
  {
    if i < 0 || i >= |s| then i
    else if IsBracket(s[i]) then i
    else ScanFrom(s, i + dir, dir)
  }

  /** A scan that starts at or before a bracket, with no bracket in between,
      stops on that bracket. */
  lemma {:induction false} ScanReaches(s: seq<JChar>, i: int, dir: int, j: int)
    requires ScanStart(s, i, dir)
    requires 0 <= j < |s| && IsBracket(s[j])
    requires dir == 1 ==> i <= j && BracketFree(s, i, j)
    requires dir == -1 ==> j <= i && BracketFree(s, j + 1, i + 1)
    ensures ScanFrom(s, i, dir) == j
    decreases if dir == 1 then |s| - i else i + 1
  {
    if i != j {
      ScanReaches(s, i + dir, dir, j);
    }
  }

  /** The bracket a scan in direction `dir` starts from: `[` forwards, `]` backwards. */
  function Begin(dir: int): JChar {
    if dir == 1 then OPEN_LOOP else CLOSE_LOOP
  }

  /** The bracket a scan in direction `dir` looks for. */
  function Finish(dir: int): JChar {
    if dir == 1 then CLOSE_LOOP else OPEN_LOOP
  }

  /** Reference matching of a loop bound: a scan that counts the nested bounds
      of the starting kind it passes and stops at the opposite bound met at
      depth 0. */
  function MatchFrom(s: seq<JChar>, i: int, dir: int, depth: nat): (j: int)
    requires ScanStart(s, i, dir)
    ensures -1 <= j <= |s|
    ensures 0 <= j < |s| ==> s[j] == Finish(dir)
    decreases if dir == 1 then |s| - i else i + 1
  {
    if i < 0 || i >= |s| then i
    else if s[i] == Begin(dir) then MatchFrom(s, i + dir, dir, depth + 1)
    else if s[i] == Finish(dir) then (if depth == 0 then i else MatchFrom(s, i + dir, dir, depth - 1))
    else MatchFrom(s, i + dir, dir, depth)
  }

  /** The bracket scan finds the matching bound exactly when it does not stop
      on a bracket of the kind it started from, i.e. when no nested loop of that
      kind lies before the bound it meets. */
  lemma {:induction false} ScanMatchesUnlessNested(s: seq<JChar>, i: int, dir: int)
    requires ScanStart(s, i, dir)
    ensures var j := ScanFrom(s, i, dir);
            j == MatchFrom(s, i, dir, 0) <==> !(0 <= j < |s| && s[j] == Begin(dir))
    decreases if dir == 1 then |s| - i else i + 1
  {
    if 0 <= i < |s| && !IsBracket(s[i]) {
      ScanMatchesUnlessNested(s, i + dir, dir);
    }
  }

  /** In `[[]]` the scan from the outer `[` stops on the inner `[` (index 1),
      while the matching bound is the last `]` (index 3). */
  lemma ScanMissesNestedMatch()
    ensures var s := [OPEN_LOOP, OPEN_LOOP, CLOSE_LOOP, CLOSE_LOOP];
            ScanFrom(s, 1, 1) == 1 && MatchFrom(s, 1, 1, 0) == 3
  {
    var s := [OPEN_LOOP, OPEN_LOOP, CLOSE_LOOP, CLOSE_LOOP];
    assert MatchFrom(s, 3, 1, 0) == 3;
    assert MatchFrom(s, 2, 1, 1) == 3;
  }
}

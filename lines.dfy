/** Runs of stones along a line, the five-in-a-row test and the game-over test
    (ai_system.py, `_count_consecutive`, `_check_five_in_row`, `_is_game_over`). */
module Lines {
  import opened Grid

  /** The four axes the engine looks along: horizontal, vertical and both diagonals. */
  const Axes: seq<(int, int)> := [(0, 1), (1, 0), (1, 1), (1, -1)]

  /** A step to one of the eight neighbouring cells. */
  predicate UnitStep(dr: int, dc: int)
  {
    -1 <= dr <= 1 && -1 <= dc <= 1 && (dr != 0 || dc != 0)
  }

  function Axis(k: int): (d: (int, int))
    requires 0 <= k < 4
    ensures UnitStep(d.0, d.1) && UnitStep(-d.0, -d.1)
  {
    Axes[k]
  }

  /** How many more steps of (dr, dc) stay on an n-wide board; it shrinks by one
      with each step taken from an on-board cell. */
  function StepsLeft(n: int, r: int, c: int, dr: int, dc: int): int
  {
    if dr == 1 then n - r else if dr == -1 then r + 1 else if dc == 1 then n - c else c + 1
  }

  /** The number of consecutive `p` cells met when walking from (r, c) by (dr, dc),
      starting with (r, c) itself and stopping at the edge or at another value. */
  function RunFrom(b: Board, r: int, c: int, dr: int, dc: int, p: int): nat
    requires IsSquare(b) && UnitStep(dr, dc)
    decreases StepsLeft(|b|, r, c, dr, dc)
  {
    if InBounds(|b|, r, c) && b[r][c] == p then 1 + RunFrom(b, r + dr, c + dc, dr, dc, p) else 0
  }

  /** The cells a run counts really hold `p`: the first `k` cells of the walk do
      whenever k does not exceed the run. */
  lemma {:induction false} RunFromCells(b: Board, r: int, c: int, dr: int, dc: int, p: int, k: nat)
    requires IsSquare(b) && UnitStep(dr, dc) && k < RunFrom(b, r, c, dr, dc, p)
    ensures InBounds(|b|, r + k * dr, c + k * dc) && b[r + k * dr][c + k * dc] == p
    decreases k
  {
    if k > 0 {
      RunFromCells(b, r + dr, c + dc, dr, dc, p, k - 1);
      assert r + dr + (k - 1) * dr == r + k * dr;
      assert c + dc + (k - 1) * dc == c + k * dc;
    }
  }

  /** The run through (r, c) along (dr, dc): the cell itself plus the unbroken `p`
      stones on both sides of it. The cell itself is always counted. */
  function RunLength(b: Board, r: int, c: int, dr: int, dc: int, p: int): (n: nat)
    requires IsSquare(b) && UnitStep(dr, dc)
    ensures n >= 1
  {
    1 + RunFrom(b, r + dr, c + dc, dr, dc, p) + RunFrom(b, r - dr, c - dc, -dr, -dc, p)
  }

  /** The run through (r, c) along the k-th axis. */
  function AxisRun(b: Board, r: int, c: int, k: int, p: int): nat
    requires IsSquare(b) && 0 <= k < 4
  {
    RunLength(b, r, c, Axis(k).0, Axis(k).1, p)
  }

  /** Some axis through (r, c) carries a run of at least five `p` stones. */
  predicate FiveInRow(b: Board, r: int, c: int, p: int)
    requires IsSquare(b)
  {
    exists k :: 0 <= k < 4 && AxisRun(b, r, c, k, p) >= 5
  }

  /** The bounded count of tools/evaluation.py `_check_pattern_at` along the k-th
      axis: the cell itself plus at most four `p` cells on each side. */
  function PatternCount(b: Board, r: int, c: int, k: int, p: int): (n: nat)
    requires IsSquare(b) && 0 <= k < 4
    ensures 1 <= n <= 9
  {
    var d := Axis(k);
    1 + Min4(RunFrom(b, r + d.0, c + d.1, d.0, d.1, p)) + Min4(RunFrom(b, r - d.0, c - d.1, -d.0, -d.1, p))
  }

  function Min4(n: nat): nat
  {
    if n < 4 then n else 4
  }

  /** Some axis through (r, c) reaches `target` under the bounded count. */
  predicate PatternAt(b: Board, r: int, c: int, p: int, target: int)
    requires IsSquare(b)
  {
    exists k :: 0 <= k < 4 && PatternCount(b, r, c, k, p) >= target
  }

  /** (r, c) holds a stone that is part of a five for its own colour. */
  predicate WinningStone(b: Board, r: int, c: int)
    requires IsSquare(b) && InBounds(|b|, r, c)
  {
    b[r][c] != Empty && FiveInRow(b, r, c, b[r][c])
  }

  /** Some stone on the board is part of a five. */
  ghost predicate GameOver(b: Board)
    requires IsSquare(b)
  {
    exists i, j :: InBounds(|b|, i, j) && WinningStone(b, i, j)
  }

  /** One of the two walks of `_count_consecutive`: the number of `player` cells
      met from (r, c) on by steps of (dr, dc) before the edge or another value. */
  method Walk(g: array2<int>, r: int, c: int, dr: int, dc: int, player: int) returns (steps: int)
    requires g.Length0 == g.Length1 && UnitStep(dr, dc)
    ensures steps == RunFrom(Snapshot(g), r, c, dr, dc, player)
  {
    ghost var b := Snapshot(g);
    steps := 0;
    var i, j := r, c;
    while 0 <= i < g.Length0 && 0 <= j < g.Length1 && g[i, j] == player
      invariant steps + RunFrom(b, i, j, dr, dc, player) == RunFrom(b, r, c, dr, dc, player)
      decreases StepsLeft(g.Length0, i, j, dr, dc)
    {
      steps := steps + 1;
      i, j := i + dr, j + dc;
    }
  }

  /** `_count_consecutive`: the cell itself plus the walks forward and backward
      along (dr, dc); reads the grid only inside its bounds and changes nothing. */
  method CountConsecutive(g: array2<int>, row: int, col: int, dr: int, dc: int, player: int)
    returns (count: int)
    requires g.Length0 == g.Length1 && UnitStep(dr, dc)
    ensures count == RunLength(Snapshot(g), row, col, dr, dc, player)
  {
    var forward := Walk(g, row + dr, col + dc, dr, dc, player);
    var backward := Walk(g, row - dr, col - dc, -dr, -dc, player);
    count := 1 + forward + backward;
  }

  /** `_check_five_in_row`: true exactly when one of the four axes through
      (row, col) carries at least five `player` stones. */
  method CheckFiveInRow(g: array2<int>, row: int, col: int, player: int) returns (five: bool)
    requires g.Length0 == g.Length1
    ensures five == FiveInRow(Snapshot(g), row, col, player)
  {
    for k := 0 to 4
      invariant forall k' :: 0 <= k' < k ==> AxisRun(Snapshot(g), row, col, k', player) < 5
    {
      var d := Axis(k);
      var count := CountConsecutive(g, row, col, d.0, d.1, player);
      if count >= 5 {
        assert AxisRun(Snapshot(g), row, col, k, player) >= 5;
        return true;
      }
    }
    return false;
  }

  /** `_is_game_over`: scans the grid row by row for a stone that is part of a
      five for its own colour. */
  method IsGameOver(g: array2<int>) returns (over: bool)
    requires g.Length0 == g.Length1
    ensures over == GameOver(Snapshot(g))
  {
    ghost var b := Snapshot(g);
    var n := g.Length0;
    for i := 0 to n
      invariant forall i', j' :: 0 <= i' < i && 0 <= j' < n ==> !WinningStone(b, i', j')
    {
      for j := 0 to n
        invariant forall i', j' :: 0 <= i' < i && 0 <= j' < n ==> !WinningStone(b, i', j')
        invariant forall j' :: 0 <= j' < j ==> !WinningStone(b, i, j')
      {
        if g[i, j] != Empty {
          var five := CheckFiveInRow(g, i, j, g[i, j]);
          if five {
            assert InBounds(|b|, i, j) && WinningStone(b, i, j);
            return true;
          }
        }
      }
    }
    return false;
  }
}

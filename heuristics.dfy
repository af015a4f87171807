/** The static evaluation of the engine (ai_system.py, `_evaluate_direction`,
    `_evaluate_position`, `_evaluate_board`, `_evaluate_move_threat`). */
module Heuristics {
  import opened Grid
  import opened Lines

  // ---------------------------------------------------------------------------
  // Specification

  /** The score `_evaluate_direction` gives a run of `count` stones: 100000 for
      five or more, 10000 for four, 1000 for three, 100 for two, nothing else. */
  function DirectionScore(count: int): (s: int)
    ensures 0 <= s <= 100000
    ensures s == 100000 <==> count >= 5
    ensures count <= 4 ==> s <= 10000
    ensures s > 0 <==> count >= 2
    ensures s % 100 == 0
  {
    if count >= 5 then 100000
    else if count == 4 then 10000
    else if count == 3 then 1000
    else if count == 2 then 100
    else 0
  }

  /** The scores of the first k axes through (r, c), added up. */
  function AxesValue(b: Board, r: int, c: int, p: int, k: nat): (v: int)
    requires IsSquare(b) && k <= 4
    ensures 0 <= v <= 100000 * k
    ensures v % 100 == 0
  {
    if k == 0 then 0
    else
      SumHundreds(AxesValue(b, r, c, p, k - 1), DirectionScore(AxisRun(b, r, c, k - 1, p)));
      AxesValue(b, r, c, p, k - 1) + DirectionScore(AxisRun(b, r, c, k - 1, p))
  }

  /** The value `_evaluate_position` gives a `p` stone at (r, c): its four axes
      scored and added up. */
  function PositionValue(b: Board, r: int, c: int, p: int): (v: int)
    requires IsSquare(b)
    ensures 0 <= v <= 400000
    ensures v % 100 == 0
  {
    AxesValue(b, r, c, p, 4)
  }

  /** A position is worth at least a five's score exactly when one of its axes
      carries five in a row; without one it is worth at most four fours. */
  lemma PositionValueFive(b: Board, r: int, c: int, p: int)
    requires IsSquare(b)
    ensures PositionValue(b, r, c, p) >= 100000 <==> FiveInRow(b, r, c, p)
    ensures !FiveInRow(b, r, c, p) ==> PositionValue(b, r, c, p) <= 40000
  {
    if !FiveInRow(b, r, c, p) {
      NoFiveBound(b, r, c, p, 4);
    } else {
      var k :| 0 <= k < 4 && AxisRun(b, r, c, k, p) >= 5;
      AxesValueAtLeast(b, r, c, p, k, 4);
    }
  }

  lemma {:induction false} NoFiveBound(b: Board, r: int, c: int, p: int, k: nat)
    requires IsSquare(b) && k <= 4
    requires forall k' :: 0 <= k' < k ==> AxisRun(b, r, c, k', p) < 5
    ensures AxesValue(b, r, c, p, k) <= 10000 * k
  {
    if k > 0 {
      NoFiveBound(b, r, c, p, k - 1);
    }
  }

  lemma {:induction false} AxesValueAtLeast(b: Board, r: int, c: int, p: int, axis: nat, k: nat)
    requires IsSquare(b) && axis < k <= 4
    ensures AxesValue(b, r, c, p, k) >= DirectionScore(AxisRun(b, r, c, axis, p))
  {
    if axis < k - 1 {
      AxesValueAtLeast(b, r, c, p, axis, k - 1);
    }
  }

  /** What one cell adds to `_evaluate_board` for `p`: its position value if it
      holds `p`, minus the opponent's position value if it holds the opponent. */
  function CellValue(b: Board, i: int, j: int, p: Player): (v: int)
    requires IsSquare(b) && InBounds(|b|, i, j)
    ensures v % 100 == 0
  {
    if b[i][j] == p then PositionValue(b, i, j, p)
    else if b[i][j] == Opponent(p) then -PositionValue(b, i, j, Opponent(p))
    else 0
  }

  /** The cells (i, 0), ..., (i, j - 1) added up. */
  function RowValue(b: Board, i: int, j: nat, p: Player): (v: int)
    requires IsSquare(b) && 0 <= i < |b| && j <= |b|
    ensures -400000 * j <= v <= 400000 * j
    ensures v % 100 == 0
  {
    if j == 0 then 0
    else
      SumHundreds(RowValue(b, i, j - 1, p), CellValue(b, i, j - 1, p));
      RowValue(b, i, j - 1, p) + CellValue(b, i, j - 1, p)
  }

  /** The rows 0, ..., i - 1 added up. */
  function RowsValue(b: Board, i: nat, p: Player): (v: int)
    requires IsSquare(b) && i <= |b|
    ensures -(i as int) * (400000 * |b|) <= v <= i * (400000 * |b|)
  {
    if i == 0 then 0 else RowsValue(b, i - 1, p) + RowValue(b, i - 1, |b|, p)
  }

  /** `_evaluate_board`: the whole board from `p`'s point of view. */
  function BoardValue(b: Board, p: Player): int
    requires IsSquare(b)
  {
    RowsValue(b, |b|, p)
  }

  /** Every evaluation is a whole number of hundreds, the smallest non-zero
      line score. */
  lemma BoardValueHundreds(b: Board, p: Player)
    requires IsSquare(b)
    ensures BoardValue(b, p) % 100 == 0
  {
    RowsHundreds(b, |b|, p);
  }

  /** Every row prefix adds up to a whole number of hundreds. */
  lemma {:induction false} RowsHundreds(b: Board, i: nat, p: Player)
    requires IsSquare(b) && i <= |b|
    ensures RowsValue(b, i, p) % 100 == 0
  {
    if i > 0 {
      RowsHundreds(b, i - 1, p);
      SumHundreds(RowsValue(b, i - 1, p), RowValue(b, i - 1, |b|, p));
    }
  }

  lemma SumHundreds(x: int, y: int)
    requires x % 100 == 0 && y % 100 == 0
    ensures (x + y) % 100 == 0
  {
    assert x + y == 100 * (x / 100 + y / 100);
  }

  /** The evaluation is bounded by four fives per cell. */
  lemma BoardValueBounds(b: Board, p: Player)
    requires IsSquare(b)
    ensures -400000 * (|b| * |b|) <= BoardValue(b, p) <= 400000 * (|b| * |b|)
  {
    var v := RowsValue(b, |b|, p);
    assert |b| * (400000 * |b|) == 400000 * (|b| * |b|);
  }

  lemma CellValueAntisymmetric(b: Board, i: int, j: int, p: Player)
    requires IsSquare(b) && InBounds(|b|, i, j)
    ensures CellValue(b, i, j, p) == -CellValue(b, i, j, Opponent(p))
  {
    assert Opponent(Opponent(p)) == p;
  }

  lemma {:induction false} RowValueAntisymmetric(b: Board, i: int, j: nat, p: Player)
    requires IsSquare(b) && 0 <= i < |b| && j <= |b|
    ensures RowValue(b, i, j, p) == -RowValue(b, i, j, Opponent(p))
  {
    if j > 0 {
      RowValueAntisymmetric(b, i, j - 1, p);
      CellValueAntisymmetric(b, i, j - 1, p);
    }
  }

  lemma {:induction false} RowsValueAntisymmetric(b: Board, i: nat, p: Player)
    requires IsSquare(b) && i <= |b|
    ensures RowsValue(b, i, p) == -RowsValue(b, i, Opponent(p))
  {
    if i > 0 {
      RowsValueAntisymmetric(b, i - 1, p);
      RowValueAntisymmetric(b, i - 1, |b|, p);
    }
  }

  /** The evaluation is zero-sum: what is good for one side is equally bad for
      the other. */
  lemma BoardValueAntisymmetric(b: Board, p: Player)
    requires IsSquare(b)
    ensures BoardValue(b, p) == -BoardValue(b, Opponent(p))
  {
    RowsValueAntisymmetric(b, |b|, p);
  }

  /** The threat weight `_evaluate_move_threat` gives a run of `count`: 1000 for
      four or more, 100 for three, 10 for two, nothing else. */
  function ThreatScore(count: int): (s: int)
    ensures 0 <= s <= 1000
    ensures s == 1000 <==> count >= 4
    ensures s > 0 <==> count >= 2
  {
    if count >= 4 then 1000
    else if count == 3 then 100
    else if count == 2 then 10
    else 0
  }

  /** The threat weights of the first k axes through (r, c), added up. */
  function ThreatSum(b: Board, r: int, c: int, p: int, k: nat): (v: int)
    requires IsSquare(b) && k <= 4
    ensures 0 <= v <= 1000 * k
  {
    if k == 0 then 0 else ThreatSum(b, r, c, p, k - 1) + ThreatScore(AxisRun(b, r, c, k - 1, p))
  }

  /** `_evaluate_move_threat`: the threat weights of the four axes through
      (r, c) once `p` is placed there; always within [0, 4000]. */
  function MoveThreat(b: Board, r: int, c: int, p: int): (v: int)
    requires IsSquare(b) && InBounds(|b|, r, c)
    ensures 0 <= v <= 4000
  {
    ThreatSum(Place(b, r, c, p), r, c, p, 4)
  }

  /** A move is worth a full 4000 exactly when it makes four or more on every
      axis. */
  lemma {:induction false} ThreatSumFull(b: Board, r: int, c: int, p: int, k: nat)
    requires IsSquare(b) && k <= 4
    ensures ThreatSum(b, r, c, p, k) == 1000 * k <==> forall k' :: 0 <= k' < k ==> AxisRun(b, r, c, k', p) >= 4
  {
    if k > 0 {
      ThreatSumFull(b, r, c, p, k - 1);
    }
  }

  // ---------------------------------------------------------------------------
  // The engine's methods over the grid

  /** `_evaluate_direction`: counts the run and scores it. */
  method EvaluateDirection(g: array2<int>, row: int, col: int, dr: int, dc: int, player: int)
    returns (score: int)
    requires g.Length0 == g.Length1 && UnitStep(dr, dc)
    ensures score == DirectionScore(RunLength(Snapshot(g), row, col, dr, dc, player))
  {
    var count := CountConsecutive(g, row, col, dr, dc, player);
    score := DirectionScore(count);
  }

  /** `_evaluate_position`: the four axes scored one after the other. */
  method EvaluatePosition(g: array2<int>, row: int, col: int, player: int) returns (score: int)
    requires g.Length0 == g.Length1
    ensures score == PositionValue(Snapshot(g), row, col, player)
  {
    score := 0;
    for k := 0 to 4
      invariant score == AxesValue(Snapshot(g), row, col, player, k)
    {
      var d := Axis(k);
      var v := EvaluateDirection(g, row, col, d.0, d.1, player);
      score := score + v;
    }
  }

  /** `_evaluate_board`: every cell of the 15 x 15 grid visited row by row. */
  method EvaluateBoard(g: array2<int>, player: Player) returns (score: int)
    requires GridOfSize(g, BoardSize)
    ensures score == BoardValue(Snapshot(g), player)
  {
    ghost var b := Snapshot(g);
    var opponent := Opponent(player);
    score := 0;
    for i := 0 to BoardSize
      invariant score == RowsValue(b, i, player)
    {
      for j := 0 to BoardSize
        invariant score == RowsValue(b, i, player) + RowValue(b, i, j, player)
      {
        if g[i, j] == player {
          var v := EvaluatePosition(g, i, j, player);
          score := score + v;
        } else if g[i, j] == opponent {
          var v := EvaluatePosition(g, i, j, opponent);
          score := score - v;
        }
      }
    }
  }

  /** `_evaluate_move_threat`: places `player` on (row, col), weighs the four
      axes, then clears the cell. The cell is left empty whatever it held, so the
      grid is as it was whenever the cell was empty to begin with. */
  method EvaluateMoveThreat(g: array2<int>, row: int, col: int, player: int) returns (score: int)
    requires g.Length0 == g.Length1 && InBounds(g.Length0, row, col)
    modifies g
    ensures score == MoveThreat(old(Snapshot(g)), row, col, player)
    ensures Snapshot(g) == Place(old(Snapshot(g)), row, col, Empty)
    ensures old(g[row, col]) == Empty ==> Snapshot(g) == old(Snapshot(g))
  {
    ghost var b := Snapshot(g);
    g[row, col] := player;
    SnapshotIs(g, Place(b, row, col, player));
    score := 0;
    for k := 0 to 4
      invariant Snapshot(g) == Place(b, row, col, player)
      invariant score == ThreatSum(Place(b, row, col, player), row, col, player, k)
    {
      var d := Axis(k);
      var count := CountConsecutive(g, row, col, d.0, d.1, player);
      score := score + ThreatScore(count);
    }
    g[row, col] := Empty;
    SnapshotIs(g, Place(b, row, col, Empty));
    if b[row][col] == Empty {
      PlaceUndo(b, row, col, player);
      SnapshotIs(g, b);
    }
  }
}

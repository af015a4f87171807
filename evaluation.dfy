/** The scans of the evaluation tools (tools/evaluation.py): the bounded
    pattern test, and the threat, win, block, attack and centre enumerations.
    They work on a square grid of any width `board.size`; the players are the
    cell values 1 and 2 and an empty cell is 0. */
module Evaluation {
  import opened Grid
  import opened Lines
  import opened Scans
  import opened Moves

  /** One of the two walks of `_check_pattern_at`: how many of the (at most
      four) cells beyond (row, col) along (dr, dc) hold `player` without a gap. */
  method BoundedWalk(g: array2<int>, row: int, col: int, dr: int, dc: int, player: int) returns (steps: nat)
    requires g.Length0 == g.Length1 && UnitStep(dr, dc)
    ensures steps == Min4(RunFrom(Snapshot(g), row + dr, col + dc, dr, dc, player))
  {
    ghost var b := Snapshot(g);
    steps := 0;
    // (nr, nc) is the i-th cell of the walk, row + dr * i and col + dc * i
    var nr, nc := row + dr, col + dc;
    for i := 1 to 5
      invariant steps == i - 1
      invariant RunFrom(b, row + dr, col + dc, dr, dc, player) == steps + RunFrom(b, nr, nc, dr, dc, player)
    {
      if 0 <= nr < g.Length0 && 0 <= nc < g.Length1 && g[nr, nc] == player {
        steps := steps + 1;
        nr, nc := nr + dr, nc + dc;
      } else {
        break;
      }
    }
  }

  /** The count of `_check_pattern_at` along the k-th direction: the cell
      itself and the two bounded walks. */
  method AxisCount(g: array2<int>, row: int, col: int, k: int, player: int) returns (count: int)
    requires g.Length0 == g.Length1 && 0 <= k < 4
    ensures count == PatternCount(Snapshot(g), row, col, k, player)
  {
    var d := Axis(k);
    var forward := BoundedWalk(g, row, col, d.0, d.1, player);
    var backward := BoundedWalk(g, row, col, -d.0, -d.1, player);
    count := 1 + forward + backward;
  }

  /** `_check_pattern_at`: some axis through (row, col) counts at least
      `target` under the bounded count. It only reads the grid. */
  method CheckPatternAt(g: array2<int>, row: int, col: int, player: int, target: int) returns (found: bool)
    requires g.Length0 == g.Length1
    ensures found == PatternAt(Snapshot(g), row, col, player, target)
  {
    for k := 0 to 4
      invariant forall k' :: 0 <= k' < k ==> PatternCount(Snapshot(g), row, col, k', player) < target
    {
      var count := AxisCount(g, row, col, k, player);
      if count >= target {
        return true;
      }
    }
    return false;
  }

  /** Up to five, the bounded count of an axis reaches a target exactly when
      the full run does: the cap of four per side only matters beyond five. */
  lemma PatternCountIsRun(b: Board, r: int, c: int, k: int, p: int, target: int)
    requires IsSquare(b) && 0 <= k < 4 && target <= 5
    ensures PatternCount(b, r, c, k, p) >= target <==> AxisRun(b, r, c, k, p) >= target
  {
  }

  /** Hence the pattern test with a target of at most five agrees with the
      engine's run count, and with target five it is the five-in-a-row test. */
  lemma PatternAtIsRun(b: Board, r: int, c: int, p: int, target: int)
    requires IsSquare(b) && target <= 5
    ensures PatternAt(b, r, c, p, target) <==> exists k :: 0 <= k < 4 && AxisRun(b, r, c, k, p) >= target
    ensures target == 5 ==> (PatternAt(b, r, c, p, target) <==> FiveInRow(b, r, c, p))
  {
    forall k | 0 <= k < 4 {
      PatternCountIsRun(b, r, c, k, p, target);
    }
  }

  /** The pattern test is monotone in the target: reaching a target reaches
      every smaller one. */
  lemma PatternAtMonotone(b: Board, r: int, c: int, p: int, lower: int, target: int)
    requires IsSquare(b) && lower <= target
    ensures PatternAt(b, r, c, p, target) ==> PatternAt(b, r, c, p, lower)
  {
  }

  // ---------------------------------------------------------------------------
  // Enumerations that probe each empty cell

  /** Places `player` on the empty cell (i, j), runs the pattern test there and
      clears the cell again. */
  method ProbePattern(g: array2<int>, i: int, j: int, player: Player, target: int) returns (hit: bool)
    requires g.Length0 == g.Length1 && InBounds(g.Length0, i, j) && g[i, j] == Empty
    modifies g
    ensures Snapshot(g) == old(Snapshot(g))
    ensures hit == Passes(old(Snapshot(g)), MakesPattern(player, target), (i, j))
  {
    ghost var b := Snapshot(g);
    g[i, j] := player;
    SnapshotIs(g, Place(b, i, j, player));
    hit := CheckPatternAt(g, i, j, player, target);
    g[i, j] := Empty;
    SnapshotIs(g, Place(Place(b, i, j, player), i, j, Empty));
    PlaceUndo(b, i, j, player);
  }

  /** One row of the loop of `_find_threats` and `_find_attacking_moves`. */
  method PatternRow(g: array2<int>, ghost b: Board, i: nat, player: Player, target: int, moves: seq<Move>)
    returns (moves': seq<Move>)
    requires g.Length0 == g.Length1 && i < g.Length0 && Snapshot(g) == b
    requires moves == Keep(b, MakesPattern(player, target), Visited(|b|, i, 0))
    modifies g
    ensures Snapshot(g) == b
    ensures moves' == Keep(b, MakesPattern(player, target), Visited(|b|, i + 1, 0))
  {
    moves' := moves;
    for j := 0 to g.Length1
      invariant Snapshot(g) == b
      invariant moves' == Keep(b, MakesPattern(player, target), Visited(|b|, i, j))
    {
      ScanStep(b, MakesPattern(player, target), i, j);
      if g[i, j] == Empty {
        var hit := ProbePattern(g, i, j, player, target);
        if hit {
          moves' := moves' + [(i, j)];
        }
      }
    }
    NextRow(|b|, i);
  }

  /** The loop of `_find_threats` and `_find_attacking_moves`: every empty cell,
      row by row, where placing `player` passes the pattern test for `target`;
      each probed cell is cleared again. */
  method FindPatternMoves(g: array2<int>, player: Player, target: int) returns (moves: seq<Move>)
    requires g.Length0 == g.Length1
    modifies g
    ensures Snapshot(g) == old(Snapshot(g))
    ensures moves == Scan(old(Snapshot(g)), MakesPattern(player, target))
  {
    ghost var b := Snapshot(g);
    moves := [];
    for i := 0 to g.Length0
      invariant Snapshot(g) == b
      invariant moves == Keep(b, MakesPattern(player, target), Visited(|b|, i, 0))
    {
      moves := PatternRow(g, b, i, player, target, moves);
    }
    assert Visited(|b|, |b|, 0) == AllCells(|b|);
  }

  /** `_find_threats`: the empty cells where `player` would reach four. */
  method FindThreats(g: array2<int>, player: Player) returns (threats: seq<Move>)
    requires g.Length0 == g.Length1
    modifies g
    ensures Snapshot(g) == old(Snapshot(g))
    ensures threats == Scan(old(Snapshot(g)), MakesPattern(player, 4))
  {
    threats := FindPatternMoves(g, player, 4);
  }

  /** `_find_attacking_moves`: the empty cells where `player` would reach three. */
  method FindAttackingMoves(g: array2<int>, player: Player) returns (attacks: seq<Move>)
    requires g.Length0 == g.Length1
    modifies g
    ensures Snapshot(g) == old(Snapshot(g))
    ensures attacks == Scan(old(Snapshot(g)), MakesPattern(player, 3))
  {
    attacks := FindPatternMoves(g, player, 3);
  }

  /** Every threat is an attacking move: the threats are exactly the attacking
      moves that also reach four, in the same order. */
  lemma ThreatsAreAttacks(b: Board, p: Player)
    requires IsSquare(b)
    ensures Keep(b, MakesPattern(p, 4), Scan(b, MakesPattern(p, 3))) == Scan(b, MakesPattern(p, 4))
    ensures forall m :: m in Scan(b, MakesPattern(p, 4)) ==> m in Scan(b, MakesPattern(p, 3))
  {
    forall m | Passes(b, MakesPattern(p, 4), m) ensures Passes(b, MakesPattern(p, 3), m) {
      PatternAtMonotone(Place(b, m.0, m.1, p), m.0, m.1, p, 3, 4);
    }
    ScanRefine(b, MakesPattern(p, 3), MakesPattern(p, 4));
    KeepMembers(b, MakesPattern(p, 4), Scan(b, MakesPattern(p, 3)));
  }

  /** Every cell these scans list is empty, and they list cells in row-major
      order. */
  lemma PatternMovesSpec(b: Board, p: Player, target: int)
    requires IsSquare(b)
    ensures RowMajorSorted(Scan(b, MakesPattern(p, target)))
    ensures forall m :: m in Scan(b, MakesPattern(p, target)) <==>
      IsFree(b, m) && PatternAt(Place(b, m.0, m.1, p), m.0, m.1, p, target)
  {
    ScanSpec(b, MakesPattern(p, target));
  }

  /** Places `p` on the empty cell (i, j), asks the board's win test about
      (i, j) and clears the cell again. */
  method ProbeWin(g: array2<int>, i: int, j: int, p: Player, checkWin: (Board, int, int) -> bool) returns (win: bool)
    requires g.Length0 == g.Length1 && InBounds(g.Length0, i, j) && g[i, j] == Empty
    modifies g
    ensures Snapshot(g) == old(Snapshot(g))
    ensures win == Passes(old(Snapshot(g)), WinsBy(p, checkWin), (i, j))
  {
    ghost var b := Snapshot(g);
    g[i, j] := p;
    SnapshotIs(g, Place(b, i, j, p));
    win := checkWin(Snapshot(g), i, j);
    g[i, j] := Empty;
    SnapshotIs(g, Place(Place(b, i, j, p), i, j, Empty));
    PlaceUndo(b, i, j, p);
  }

  /** One row of the loop of `_find_winning_moves` and `_find_blocking_moves`. */
  method WinRow(g: array2<int>, ghost b: Board, i: nat, p: Player, checkWin: (Board, int, int) -> bool, moves: seq<Move>)
    returns (moves': seq<Move>)
    requires g.Length0 == g.Length1 && i < g.Length0 && Snapshot(g) == b
    requires moves == Keep(b, WinsBy(p, checkWin), Visited(|b|, i, 0))
    modifies g
    ensures Snapshot(g) == b
    ensures moves' == Keep(b, WinsBy(p, checkWin), Visited(|b|, i + 1, 0))
  {
    moves' := moves;
    for j := 0 to g.Length1
      invariant Snapshot(g) == b
      invariant moves' == Keep(b, WinsBy(p, checkWin), Visited(|b|, i, j))
    {
      ScanStep(b, WinsBy(p, checkWin), i, j);
      if g[i, j] == Empty {
        var win := ProbeWin(g, i, j, p, checkWin);
        if win {
          moves' := moves' + [(i, j)];
        }
      }
    }
    NextRow(|b|, i);
  }

  /** The loop of `_find_winning_moves` and `_find_blocking_moves`: every empty
      cell, row by row, where placing `p` makes the board's win test hold. */
  method FindWinsBy(g: array2<int>, p: Player, checkWin: (Board, int, int) -> bool) returns (moves: seq<Move>)
    requires g.Length0 == g.Length1
    modifies g
    ensures Snapshot(g) == old(Snapshot(g))
    ensures moves == Scan(old(Snapshot(g)), WinsBy(p, checkWin))
  {
    ghost var b := Snapshot(g);
    moves := [];
    for i := 0 to g.Length0
      invariant Snapshot(g) == b
      invariant moves == Keep(b, WinsBy(p, checkWin), Visited(|b|, i, 0))
    {
      moves := WinRow(g, b, i, p, checkWin, moves);
    }
    assert Visited(|b|, |b|, 0) == AllCells(|b|);
  }

  /** `_find_winning_moves`: the cells where the player to move would win. */
  method FindWinningMoves(g: array2<int>, current: Player, checkWin: (Board, int, int) -> bool) returns (moves: seq<Move>)
    requires g.Length0 == g.Length1
    modifies g
    ensures Snapshot(g) == old(Snapshot(g))
    ensures moves == Scan(old(Snapshot(g)), WinsBy(current, checkWin))
  {
    moves := FindWinsBy(g, current, checkWin);
  }

  /** `_find_blocking_moves`: the cells where `opponent` would win. */
  method FindBlockingMoves(g: array2<int>, opponent: Player, checkWin: (Board, int, int) -> bool) returns (moves: seq<Move>)
    requires g.Length0 == g.Length1
    modifies g
    ensures Snapshot(g) == old(Snapshot(g))
    ensures moves == Scan(old(Snapshot(g)), WinsBy(opponent, checkWin))
  {
    moves := FindWinsBy(g, opponent, checkWin);
  }

  // ---------------------------------------------------------------------------
  // The centre box

  /** `_find_center_moves`: the empty cells of the 5 x 5 box around the centre,
      clipped to the board, row by row; it only reads the grid. */
  method FindCenterMoves(g: array2<int>) returns (moves: seq<Move>)
    requires g.Length0 == g.Length1
    ensures RowMajorSorted(moves)
    ensures forall m :: m in moves <==> IsFree(Snapshot(g), m) && InCentreBox(g.Length0, m.0, m.1)
  {
    ghost var b := Snapshot(g);
    var n := g.Length0;
    var center := n / 2;
    var lo, hi := MaxInt(0, center - 2), MinInt(n, center + 3);
    moves := [];
    for i := lo to hi
      invariant RowMajorSorted(moves)
      invariant forall m :: m in moves <==> IsFree(b, m) && lo <= m.0 < i && lo <= m.1 < hi
      invariant forall k :: 0 <= k < |moves| ==> moves[k].0 < i
    {
      for j := lo to hi
        invariant RowMajorSorted(moves)
        invariant forall m :: m in moves <==> IsFree(b, m) && ((lo <= m.0 < i && lo <= m.1 < hi) || (m.0 == i && lo <= m.1 < j))
        invariant forall k :: 0 <= k < |moves| ==> Before(moves[k], (i, j))
      {
        if g[i, j] == Empty {
          moves := moves + [(i, j)];
        }
      }
    }
  }

  /** The centre moves are the centre-box scan, the same cells as the engine's
      second candidate tier. */
  lemma CenterMovesAreScan(b: Board, moves: seq<Move>)
    requires IsSquare(b) && RowMajorSorted(moves)
    requires forall m :: m in moves <==> IsFree(b, m) && InCentreBox(|b|, m.0, m.1)
    ensures moves == Scan(b, Both(Free, CentreBox))
  {
    ScanSpec(b, Both(Free, CentreBox));
    forall m ensures m in moves <==> m in Scan(b, Both(Free, CentreBox)) {
      assert Passes(b, Both(Free, CentreBox), m) <==> Passes(b, Free, m) && Passes(b, CentreBox, m);
    }
    SortedUnique(moves, Scan(b, Both(Free, CentreBox)));
  }
}
